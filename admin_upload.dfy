/** The admin panel's image uploader (js/admin-upload.js): the size label, the
    preview names, the progress bar, and the ordered buffer of uploaded images
    that files, data URLs, removals and clearing update. */
module AdminUpload {
  import opened Wrappers
  import opened Seqs
  import opened Text

  /** `MAX_IMAGE_SIZE_BYTES`: 3 MB. */
  const MaxImageSizeBytes: nat := 3 * 1024 * 1024

  const KiB: real := 1024.0
  const MiB: real := 1024.0 * 1024.0

  /** The unit `formatBytes` picks, with the number it prints before the unit
      (rounded by `toFixed` in the page, unrounded here). */
  datatype SizeLabel = ZeroBytes | Bytes(count: real) | Kilobytes(amount: real) | Megabytes(amount: real)

  /** `formatBytes`: `None` stands for a size that is not a finite number. A size
      that is not positive prints as `0 B`; below 1024 the unit is bytes, below
      1024 * 1024 kilobytes, and megabytes above that. */
  function FormatBytes(bytes: Option<real>): (shown: SizeLabel)
    ensures shown.ZeroBytes? <==> bytes.None? || bytes.value <= 0.0
    ensures shown.Bytes? ==> 0.0 < shown.count < KiB
    ensures shown.Kilobytes? ==> 1.0 <= shown.amount < KiB
    ensures shown.Megabytes? ==> 1.0 <= shown.amount
    ensures bytes.Some? && 0.0 < bytes.value < KiB ==> shown.Bytes?
    ensures bytes.Some? && KiB <= bytes.value < MiB ==> shown.Kilobytes?
    ensures bytes.Some? && MiB <= bytes.value ==> shown.Megabytes?
  {
    if bytes.None? || bytes.value <= 0.0 then ZeroBytes
    else if bytes.value < KiB then Bytes(bytes.value)
    else if bytes.value < MiB then Kilobytes(bytes.value / KiB)
    else Megabytes(bytes.value / MiB)
  }

  /** The number of bytes a label stands for. */
  function LabelBytes(size: SizeLabel): real {
    match size
    case ZeroBytes => 0.0
    case Bytes(count) => count
    case Kilobytes(amount) => amount * KiB
    case Megabytes(amount) => amount * MiB
  }

  /** Before rounding, a label of a positive size gives back that size. */
  lemma FormatBytesRoundTrip(bytes: real)
    requires bytes > 0.0
    ensures LabelBytes(FormatBytes(Some(bytes))) == bytes
  {
  }

  /** A larger size never gets a smaller unit. */
  lemma FormatBytesUnitMonotone(a: real, b: real)
    requires 0.0 < a <= b
    ensures FormatBytes(Some(a)).Megabytes? ==> FormatBytes(Some(b)).Megabytes?
    ensures FormatBytes(Some(a)).Kilobytes? ==> !FormatBytes(Some(b)).Bytes?
  {
  }

  /** `makePreviewName`: the image's name, or `Imagen n` for the n-th image (from 1). */
  function MakePreviewName(index: nat, name: string): (r: string)
    ensures r != []
    ensures name != [] ==> r == name
    ensures name == [] ==> r == "Imagen " + NatToString(index + 1)
  {
    if name != [] then name else "Imagen " + NatToString(index + 1)
  }

  /** Unnamed images at different positions get different preview names. */
  lemma UnnamedPreviewNamesDiffer(i: nat, j: nat)
    requires i != j
    ensures MakePreviewName(i, []) != MakePreviewName(j, [])
  {
    var prefix := "Imagen ";
    if MakePreviewName(i, []) == MakePreviewName(j, []) {
      assert NatToString(i + 1) == MakePreviewName(i, [])[|prefix|..];
      assert NatToString(j + 1) == MakePreviewName(j, [])[|prefix|..];
      NatToStringInjective(i + 1, j + 1);
    }
  }

  /** `Math.round`: to the nearest integer, halves upwards. */
  function Round(x: real): (n: int)
    ensures x - 0.5 < n as real <= x + 0.5
  {
    (x + 0.5).Floor
  }

  /** `Math.max(0, Math.min(100, Math.round(value)))`. */
  function ClampProgress(value: real): (p: int)
    ensures 0 <= p <= 100
    ensures 0 <= Round(value) <= 100 ==> p == Round(value)
    ensures Round(value) < 0 ==> p == 0
    ensures Round(value) > 100 ==> p == 100
  {
    var r := Round(value);
    if r < 0 then 0 else if r > 100 then 100 else r
  }

  /** The bar never moves backwards when the value it is given does not. */
  lemma ClampProgressMonotone(a: real, b: real)
    requires a <= b
    ensures ClampProgress(a) <= ClampProgress(b)
  {
  }

  /** A file handed to the uploader, with the data URL a `FileReader` yields for it. */
  datatype FileInfo = FileInfo(name: string, size: nat, mimeType: string, dataUrl: string)

  /** An entry of the buffer. The page's ids are fresh strings built from the clock
      and a random number; here they are numbers drawn from a counter. */
  datatype UploadedImage = UploadedImage(id: nat, name: string, size: nat, mimeType: string, dataUrl: string)

  /** `file.type.startsWith('image/')`. */
  predicate IsImageFile(f: FileInfo) {
    "image/" <= f.mimeType
  }

  /** `[...fileList].filter(...)`: the image files, in input order. */
  function ImageFiles(fileList: seq<FileInfo>): (files: seq<FileInfo>)
    ensures forall f :: f in files ==> f in fileList && IsImageFile(f)
    ensures forall f :: f in fileList && IsImageFile(f) ==> f in files
  {
    Filter(fileList, IsImageFile)
  }

  /** The size test of the `forEach`: not above the limit. */
  function WithinLimit(maxSizeBytes: nat): FileInfo -> bool {
    (f: FileInfo) => f.size <= maxSizeBytes
  }

  /** The opposite test: above the limit. */
  function AboveLimit(maxSizeBytes: nat): FileInfo -> bool {
    (f: FileInfo) => f.size > maxSizeBytes
  }

  /** The files the `forEach` keeps: exactly those not above the limit, in input
      order. */
  function ValidFiles(files: seq<FileInfo>, maxSizeBytes: nat): (r: seq<FileInfo>)
    ensures r == Filter(files, WithinLimit(maxSizeBytes))
    ensures |r| <= |files|
    ensures forall f :: f in r ==> f in files && f.size <= maxSizeBytes
    ensures forall f :: f in files && f.size <= maxSizeBytes ==> f in r
    decreases |files|
  {
    if files == [] then []
    else
      var init := files[..|files| - 1];
      var last := files[|files| - 1];
      assert files == init + [last];
      FilterAppend(init, [last], WithinLimit(maxSizeBytes));
      assert [last][1..] == [];
      ValidFiles(init, maxSizeBytes) + (if last.size <= maxSizeBytes then [last] else [])
  }

  /** What the status line names of a skipped file: `name (size)`. */
  datatype OversizedNote = OversizedNote(name: string, size: SizeLabel)

  function Note(f: FileInfo): OversizedNote {
    OversizedNote(f.name, FormatBytes(Some(f.size as real)))
  }

  /** One note per file, in order. */
  function Notes(files: seq<FileInfo>): (r: seq<OversizedNote>)
    ensures |r| == |files| && forall i :: 0 <= i < |files| ==> r[i] == Note(files[i])
  {
    seq(|files|, i requires 0 <= i < |files| => Note(files[i]))
  }

  /** The notes the `forEach` collects: one for each file above the limit, in input
      order. */
  function OversizedNotes(files: seq<FileInfo>, maxSizeBytes: nat): (r: seq<OversizedNote>)
    ensures r == Notes(Filter(files, AboveLimit(maxSizeBytes)))
    decreases |files|
  {
    if files == [] then []
    else
      var init := files[..|files| - 1];
      var last := files[|files| - 1];
      assert files == init + [last];
      FilterAppend(init, [last], AboveLimit(maxSizeBytes));
      assert [last][1..] == [];
      OversizedNotes(init, maxSizeBytes) + (if last.size > maxSizeBytes then [Note(last)] else [])
  }

  /** Every file above the limit is noted, and every note names such a file. */
  lemma OversizedNotesCover(files: seq<FileInfo>, maxSizeBytes: nat)
    ensures forall f :: f in files && f.size > maxSizeBytes ==> Note(f) in OversizedNotes(files, maxSizeBytes)
    ensures forall n :: n in OversizedNotes(files, maxSizeBytes) ==>
      exists f :: f in files && f.size > maxSizeBytes && n == Note(f)
  {
    var above := Filter(files, AboveLimit(maxSizeBytes));
    var r := OversizedNotes(files, maxSizeBytes);
    forall f | f in files && f.size > maxSizeBytes ensures Note(f) in r {
      assert f in above;
      var k :| 0 <= k < |above| && above[k] == f;
      assert r[k] == Note(f);
    }
    forall n | n in r ensures exists f :: f in files && f.size > maxSizeBytes && n == Note(f) {
      var k :| 0 <= k < |r| && r[k] == n;
      assert above[k] in above;
    }
  }

  /** Every file is either kept or noted, never both. */
  lemma {:induction false} SplitAccountsForAll(files: seq<FileInfo>, maxSizeBytes: nat)
    ensures |ValidFiles(files, maxSizeBytes)| + |OversizedNotes(files, maxSizeBytes)| == |files|
    decreases |files|
  {
    if files != [] {
      SplitAccountsForAll(files[..|files| - 1], maxSizeBytes);
    }
  }

  /** The buffer entries made from files, with ids counted up from `firstId`. */
  function Uploaded(files: seq<FileInfo>, firstId: nat): (r: seq<UploadedImage>)
    ensures |r| == |files|
    ensures forall i :: 0 <= i < |files| ==>
      r[i] == UploadedImage(firstId + i, files[i].name, files[i].size, files[i].mimeType, files[i].dataUrl)
  {
    seq(|files|, i requires 0 <= i < |files| =>
      UploadedImage(firstId + i, files[i].name, files[i].size, files[i].mimeType, files[i].dataUrl))
  }

  /** `dataUrl.split(';')[0].replace('data:', '')`, or the wildcard image type when that is empty. */
  function DataUrlType(dataUrl: string): (t: string)
    ensures t != []
  {
    var mime := ReplaceFirst(TakeUntil(dataUrl, ';'), "data:", "");
    if mime == [] then "image/*" else mime
  }

  /** A data URL that names no type gets the wildcard image type. */
  lemma DataUrlTypeOfEmptyType(rest: string)
    ensures DataUrlType("data:;" + rest) == "image/*"
  {
    assert "data:;" + rest == "data:" + [';'] + rest;
    TakeUntilPrefix("data:", ';', rest);
    assert "data:"[..|"data:"|] == "data:";
  }

  /** A well-formed data URL `data:<type>;<rest>` yields its type. */
  lemma DataUrlTypeOfWellFormed(mime: string, rest: string)
    requires mime != [] && ';' !in mime
    ensures DataUrlType("data:" + mime + ";" + rest) == mime
  {
    var head := "data:" + mime;
    assert ';' !in head by {
      forall k | 0 <= k < |head| ensures head[k] != ';' {
        if k >= 5 { assert head[k] == mime[k - 5]; }
      }
    }
    assert "data:" + mime + ";" + rest == head + [';'] + rest;
    TakeUntilPrefix(head, ';', rest);
    assert head[..5] == "data:" && head[5..] == mime;
  }

  /** `Math.ceil((dataUrl.length * 3) / 4)`. */
  function DataUrlSize(dataUrl: string): (n: nat)
    ensures 4 * n >= 3 * |dataUrl| && 4 * n < 3 * |dataUrl| + 4
  {
    (3 * |dataUrl| + 3) / 4
  }

  predicate NonEmptyUrl(dataUrl: string) {
    dataUrl != []
  }

  /** The entries `setImagesFromDataUrls` makes: numbered names, sizes estimated
      from the length, types read from the URL, ids counted up from `firstId`. */
  function FromDataUrls(urls: seq<string>, firstId: nat): (r: seq<UploadedImage>)
    ensures |r| == |urls|
    ensures forall i :: 0 <= i < |urls| ==> r[i] == UploadedImage(
      firstId + i, "Imagen " + NatToString(i + 1), DataUrlSize(urls[i]), DataUrlType(urls[i]), urls[i])
  {
    seq(|urls|, i requires 0 <= i < |urls| => UploadedImage(
      firstId + i, "Imagen " + NatToString(i + 1), DataUrlSize(urls[i]), DataUrlType(urls[i]), urls[i]))
  }

  /** `images.map((image) => image.dataUrl)`. */
  function DataUrls(images: seq<UploadedImage>): (r: seq<string>)
    ensures |r| == |images| && forall i :: 0 <= i < |images| ==> r[i] == images[i].dataUrl
  {
    seq(|images|, i requires 0 <= i < |images| => images[i].dataUrl)
  }

  /** The uploader's state: the buffer, the progress bar's value and label, and the
      next fresh id. */
  datatype UploaderState = UploaderState(images: seq<UploadedImage>, progress: int, progressLabel: string, nextId: nat)

  predicate DistinctIds(images: seq<UploadedImage>) {
    forall i, j :: 0 <= i < j < |images| ==> images[i].id != images[j].id
  }

  /** The progress bar shows a percentage, and every id in the buffer is unique and
      below the next fresh one. */
  predicate ValidState(s: UploaderState) {
    && 0 <= s.progress <= 100
    && IdsFresh(s.images, s.nextId)
  }

  /** Every id in the buffer is unique and below `nextId`. */
  predicate IdsFresh(images: seq<UploadedImage>, nextId: nat) {
    && DistinctIds(images)
    && forall img :: img in images ==> img.id < nextId
  }

  /** `setProgress(value, message)`: the clamped value, and the message or the
      percentage as label. */
  function SetProgressEffect(s: UploaderState, value: real, message: string): (t: UploaderState)
    ensures t.images == s.images && t.nextId == s.nextId
    ensures t.progress == ClampProgress(value) && 0 <= t.progress <= 100
    ensures t.progressLabel == (if message != [] then message else NatToString(t.progress) + "%")
    ensures t.progressLabel != []
  {
    var safe := ClampProgress(value);
    s.(progress := safe, progressLabel := if message != [] then message else NatToString(safe) + "%")
  }

  /** The progress shown after the buffer is replaced or shrunk: full with a count
      when images remain, empty otherwise. */
  function ShowLoaded(s: UploaderState): (t: UploaderState)
    ensures t.images == s.images && t.nextId == s.nextId
    ensures t.progress == (if |s.images| > 0 then 100 else 0)
  {
    if |s.images| > 0
    then SetProgressEffect(s, 100.0, NatToString(|s.images|) + " imagen(es) cargada(s)")
    else SetProgressEffect(s, 0.0, "Sin imágenes")
  }

  /** What `addFiles` reports on the status line. */
  datatype AddReport = NoImageFiles | Report(oversized: seq<OversizedNote>, added: nat)

  function AddFilesReport(maxSizeBytes: nat, fileList: seq<FileInfo>): AddReport {
    var files := ImageFiles(fileList);
    if files == [] then NoImageFiles
    else Report(OversizedNotes(files, maxSizeBytes), |ValidFiles(files, maxSizeBytes)|)
  }

  /** `addFiles`: with no image file nothing changes; with no file within the limit
      only the bar is reset; otherwise the valid files are appended in order and
      the bar shows them as ready. */
  function AddFilesEffect(s: UploaderState, maxSizeBytes: nat, fileList: seq<FileInfo>): (t: UploaderState)
    ensures ImageFiles(fileList) == [] ==> t == s
    ensures |t.images| == |s.images| + |ValidFiles(ImageFiles(fileList), maxSizeBytes)|
    ensures t.nextId == s.nextId + |ValidFiles(ImageFiles(fileList), maxSizeBytes)|
    ensures ImageFiles(fileList) != [] ==>
      t.progress == (if ValidFiles(ImageFiles(fileList), maxSizeBytes) == [] then 0 else 100)
  {
    var files := ImageFiles(fileList);
    if files == [] then s
    else
      var valid := ValidFiles(files, maxSizeBytes);
      if valid == [] then SetProgressEffect(s, 0.0, "Sin carga")
      else
        var loaded := s.(images := s.images + Uploaded(valid, s.nextId), nextId := s.nextId + |valid|);
        SetProgressEffect(loaded, 100.0, NatToString(|valid|) + " imagen(es) lista(s)")
  }

  /** Adding files keeps the buffer's entries, appends the image files within the
      limit in input order, and adds nothing else. */
  lemma AddFilesAppends(s: UploaderState, maxSizeBytes: nat, fileList: seq<FileInfo>)
    ensures DataUrls(AddFilesEffect(s, maxSizeBytes, fileList).images)
         == DataUrls(s.images) + DataUrls(Uploaded(ValidFiles(ImageFiles(fileList), maxSizeBytes), s.nextId))
    ensures AddFilesEffect(s, maxSizeBytes, fileList).images[..|s.images|] == s.images
    ensures forall i :: |s.images| <= i < |AddFilesEffect(s, maxSizeBytes, fileList).images| ==>
      IsImageFile(FileOf(AddFilesEffect(s, maxSizeBytes, fileList).images[i]))
      && AddFilesEffect(s, maxSizeBytes, fileList).images[i].size <= maxSizeBytes
    ensures ValidFiles(ImageFiles(fileList), maxSizeBytes) == [] ==>
      AddFilesEffect(s, maxSizeBytes, fileList).images == s.images
  {
    var t := AddFilesEffect(s, maxSizeBytes, fileList);
    var valid := ValidFiles(ImageFiles(fileList), maxSizeBytes);
    var added := Uploaded(valid, s.nextId);
    if ImageFiles(fileList) != [] && valid != [] {
      assert t.images == s.images + added;
      forall i | |s.images| <= i < |t.images|
        ensures IsImageFile(FileOf(t.images[i])) && t.images[i].size <= maxSizeBytes
      {
        var f := valid[i - |s.images|];
        assert f in valid;
        assert t.images[i] == added[i - |s.images|];
      }
    } else {
      assert added == [] || t.images == s.images;
      if ImageFiles(fileList) == [] {
        assert valid == [];
      }
    }
  }

  /** The file an entry came from, as far as the entry records it. */
  function FileOf(img: UploadedImage): FileInfo {
    FileInfo(img.name, img.size, img.mimeType, img.dataUrl)
  }

  /** Adding files keeps every id unique and fresh. */
  lemma AddFilesKeepsValid(s: UploaderState, maxSizeBytes: nat, fileList: seq<FileInfo>)
    requires ValidState(s)
    ensures ValidState(AddFilesEffect(s, maxSizeBytes, fileList))
  {
    var valid := ValidFiles(ImageFiles(fileList), maxSizeBytes);
    if ImageFiles(fileList) != [] && valid != [] {
      AppendKeepsIdsFresh(s.images, s.nextId, valid);
    }
  }

  /** Entries numbered from `nextId` on keep the buffer's ids unique and fresh. */
  lemma AppendKeepsIdsFresh(images: seq<UploadedImage>, nextId: nat, files: seq<FileInfo>)
    requires IdsFresh(images, nextId)
    ensures IdsFresh(images + Uploaded(files, nextId), nextId + |files|)
  {
    var added := Uploaded(files, nextId);
    var all := images + added;
    forall i, j | 0 <= i < j < |all| ensures all[i].id != all[j].id {
      if j >= |images| {
        assert all[j] == added[j - |images|];
        if i < |images| {
          assert all[i] in images;
        } else {
          assert all[i] == added[i - |images|];
        }
      }
    }
    forall img | img in all ensures img.id < nextId + |files| {
      var k :| 0 <= k < |all| && all[k] == img;
      if k >= |images| {
        assert img == added[k - |images|];
      } else {
        assert img in images;
      }
    }
  }

  /** `setImagesFromDataUrls`: the buffer becomes the entries of the non-empty URLs. */
  function SetImagesEffect(s: UploaderState, dataUrls: seq<string>): (t: UploaderState)
    ensures |t.images| == |Filter(dataUrls, NonEmptyUrl)|
    ensures t.progress == (if |t.images| > 0 then 100 else 0)
  {
    var urls := Filter(dataUrls, NonEmptyUrl);
    ShowLoaded(s.(images := FromDataUrls(urls, s.nextId), nextId := s.nextId + |urls|))
  }

  /** Reading back after loading URLs gives the non-empty URLs, in order. */
  lemma SetImagesRoundTrip(s: UploaderState, dataUrls: seq<string>)
    ensures DataUrls(SetImagesEffect(s, dataUrls).images) == Filter(dataUrls, NonEmptyUrl)
  {
    var urls := Filter(dataUrls, NonEmptyUrl);
    var t := SetImagesEffect(s, dataUrls);
    assert t.images == FromDataUrls(urls, s.nextId);
    assert DataUrls(t.images) == urls;
  }

  /** Loading URLs gives a valid buffer. */
  lemma SetImagesKeepsValid(s: UploaderState, dataUrls: seq<string>)
    requires ValidState(s)
    ensures ValidState(SetImagesEffect(s, dataUrls))
  {
    FromDataUrlsIdsFresh(Filter(dataUrls, NonEmptyUrl), s.nextId);
  }

  /** Entries made from URLs with ids counted up from `firstId` have unique ids
      below the next free one. */
  lemma FromDataUrlsIdsFresh(urls: seq<string>, firstId: nat)
    ensures IdsFresh(FromDataUrls(urls, firstId), firstId + |urls|)
  {
    var images := FromDataUrls(urls, firstId);
    forall img | img in images ensures img.id < firstId + |urls| {
      var k :| 0 <= k < |images| && images[k] == img;
    }
  }

  /** Reloading the buffer from its own URLs, as the form does when a listing is
      edited, gives back the same URLs when none is empty. */
  lemma ReloadKeepsImages(s: UploaderState)
    requires forall img :: img in s.images ==> img.dataUrl != []
    ensures DataUrls(SetImagesEffect(s, DataUrls(s.images)).images) == DataUrls(s.images)
  {
    var urls := DataUrls(s.images);
    forall u | u in urls ensures NonEmptyUrl(u) {
      var k :| 0 <= k < |urls| && urls[k] == u;
      assert s.images[k] in s.images;
    }
    FilterAll(urls, NonEmptyUrl);
    SetImagesRoundTrip(s, urls);
  }

  /** `images.filter((image) => image.id !== imageId)`. */
  function WithoutImage(images: seq<UploadedImage>, imageId: nat): (r: seq<UploadedImage>)
    ensures forall img :: img in r <==> img in images && img.id != imageId
    ensures IsSubsequence(r, images)
    decreases |images|
  {
    if images == [] then []
    else
      var rest := WithoutImage(images[1..], imageId);
      assert forall img :: img in images <==> img == images[0] || img in images[1..];
      if images[0].id != imageId then [images[0]] + rest else rest
  }

  /** With unique ids, removing the id of an entry removes that one entry. */
  lemma {:induction false} WithoutImageRemovesOne(images: seq<UploadedImage>, k: nat)
    requires DistinctIds(images) && k < |images|
    ensures |WithoutImage(images, images[k].id)| == |images| - 1
    decreases |images|
  {
    var id := images[k].id;
    if k == 0 {
      forall img | img in images[1..] ensures img.id != id {
        var j :| 0 <= j < |images[1..]| && images[1..][j] == img;
        assert images[j + 1] == img;
      }
      WithoutImageKeepsAll(images[1..], id);
    } else {
      WithoutImageRemovesOne(images[1..], k - 1);
    }
  }

  /** Removing an id no entry has changes nothing. */
  lemma {:induction false} WithoutImageKeepsAll(images: seq<UploadedImage>, imageId: nat)
    requires forall img :: img in images ==> img.id != imageId
    ensures WithoutImage(images, imageId) == images
    decreases |images|
  {
    if images != [] {
      assert forall img :: img in images[1..] ==> img in images;
      WithoutImageKeepsAll(images[1..], imageId);
    }
  }

  /** The remove button: the entry with that id leaves the buffer. */
  function RemoveEffect(s: UploaderState, imageId: nat): (t: UploaderState)
    ensures forall img :: img in t.images <==> img in s.images && img.id != imageId
    ensures t.nextId == s.nextId
    ensures t.progress == (if |t.images| > 0 then 100 else 0)
  {
    ShowLoaded(s.(images := WithoutImage(s.images, imageId)))
  }

  /** Removing keeps every id unique and fresh. */
  lemma RemoveKeepsValid(s: UploaderState, imageId: nat)
    requires ValidState(s)
    ensures ValidState(RemoveEffect(s, imageId))
  {
    WithoutImageKeepsIdsFresh(s.images, s.nextId, imageId);
  }

  /** Dropping entries keeps the remaining ids unique and fresh. */
  lemma WithoutImageKeepsIdsFresh(images: seq<UploadedImage>, nextId: nat, imageId: nat)
    requires IdsFresh(images, nextId)
    ensures IdsFresh(WithoutImage(images, imageId), nextId)
  {
    SubsequenceKeepsDistinctIds(WithoutImage(images, imageId), images);
  }

  /** An order-preserving part of a buffer with unique ids has unique ids. */
  lemma {:induction false} SubsequenceKeepsDistinctIds(r: seq<UploadedImage>, images: seq<UploadedImage>)
    requires IsSubsequence(r, images) && DistinctIds(images)
    ensures DistinctIds(r)
    decreases |images|
  {
    if images != [] {
      assert DistinctIds(images[1..]);
      if r != [] && r[0] == images[0] && IsSubsequence(r[1..], images[1..]) {
        SubsequenceKeepsDistinctIds(r[1..], images[1..]);
        SubsequenceMembers(r[1..], images[1..]);
        forall j | 0 < j < |r| ensures r[0].id != r[j].id {
          assert r[1..][j - 1] == r[j];
          assert r[j] in r[1..];
          var m :| 0 <= m < |images[1..]| && images[1..][m] == r[j];
          assert images[m + 1] == r[j];
        }
        forall i, j | 0 <= i < j < |r| ensures r[i].id != r[j].id {
          if i > 0 {
            assert r[1..][i - 1] == r[i] && r[1..][j - 1] == r[j];
          }
        }
      } else {
        SubsequenceKeepsDistinctIds(r, images[1..]);
      }
    }
  }

  /** The elements of a subsequence come from the sequence. */
  lemma {:induction false} SubsequenceMembers<T>(r: seq<T>, s: seq<T>)
    requires IsSubsequence(r, s)
    ensures forall x :: x in r ==> x in s
    decreases |s|
  {
    if s != [] {
      if r != [] && r[0] == s[0] && IsSubsequence(r[1..], s[1..]) {
        SubsequenceMembers(r[1..], s[1..]);
        assert forall x :: x in r ==> x == r[0] || x in r[1..];
      } else {
        SubsequenceMembers(r, s[1..]);
      }
    }
  }

  /** `clear`: the buffer is emptied and the bar reset. */
  function ClearEffect(s: UploaderState): (t: UploaderState)
    ensures DataUrls(t.images) == []
    ensures t.progress == 0
    ensures ValidState(s) ==> ValidState(t)
  {
    SetProgressEffect(s.(images := []), 0.0, "Sin imágenes")
  }

  /** The state right after construction: an empty buffer and a reset bar. */
  const Initial: UploaderState := UploaderState([], 0, "Sin imágenes", 0)

  lemma InitialIsValid()
    ensures ValidState(Initial) && DataUrls(Initial.images) == []
  {
  }

  /** The `forEach` of `addFiles`: the files within the limit and the notes for the
      others, both in input order; every file lands in exactly one of them. */
  method SplitBySize(files: seq<FileInfo>, maxSizeBytes: nat)
    returns (validFiles: seq<FileInfo>, oversized: seq<OversizedNote>)
    ensures validFiles == ValidFiles(files, maxSizeBytes)
    ensures oversized == OversizedNotes(files, maxSizeBytes)
    ensures |validFiles| + |oversized| == |files|
  {
    validFiles := [];
    oversized := [];
    for i := 0 to |files|
      invariant validFiles == ValidFiles(files[..i], maxSizeBytes)
      invariant oversized == OversizedNotes(files[..i], maxSizeBytes)
    {
      var file := files[i];
      assert files[..i + 1][..i] == files[..i];
      assert files[..i + 1][i] == file;
      if file.size > maxSizeBytes {
        oversized := oversized + [Note(file)];
      } else {
        validFiles := validFiles + [file];
      }
    }
    assert files[..|files|] == files;
    SplitAccountsForAll(files, maxSizeBytes);
  }

  /** The object `createAdminImageUploader` returns, with the closure's state as
      fields. The preview markup, the notices and the input's reset are not
      modelled. */
  class ImageUploader {
    const maxSizeBytes: nat
    var images: seq<UploadedImage>
    var progress: int
    var progressLabel: string
    var nextId: nat

    function State(): UploaderState
      reads this
    {
      UploaderState(images, progress, progressLabel, nextId)
    }

    predicate Valid()
      reads this
    {
      ValidState(State())
    }

    constructor (maxSize: nat)
      ensures maxSizeBytes == maxSize && State() == Initial && Valid()
    {
      maxSizeBytes := maxSize;
      images := [];
      nextId := 0;
      progress := 0;
      progressLabel := "Sin imágenes";
    }

    method SetProgress(value: real, message: string)
      requires Valid()
      modifies this
      ensures Valid()
      ensures State() == SetProgressEffect(old(State()), value, message)
    {
      var safeValue := ClampProgress(value);
      progress := safeValue;
      progressLabel := if message != [] then message else NatToString(safeValue) + "%";
    }

    /** `addFiles`: keeps the image files, splits them at the size limit, and
        appends the valid ones. */
    method AddFiles(fileList: seq<FileInfo>) returns (report: AddReport)
      requires Valid()
      modifies this
      ensures Valid()
      ensures State() == AddFilesEffect(old(State()), maxSizeBytes, fileList)
      ensures report == AddFilesReport(maxSizeBytes, fileList)
    {
      ghost var s0 := State();
      var files := ImageFiles(fileList);
      if files == [] {
        return NoImageFiles;
      }

      var validFiles, oversized := SplitBySize(files, maxSizeBytes);
      report := Report(oversized, |validFiles|);

      if validFiles == [] {
        SetProgress(0.0, "Sin carga");
        return;
      }

      SetProgress(0.0, "Procesando imágenes...");
      AppendFiles(validFiles);
      ghost var loaded := s0.(images := images, nextId := nextId);
      assert loaded == s0.(images := s0.images + Uploaded(validFiles, s0.nextId), nextId := s0.nextId + |validFiles|);
      SetProgress(100.0, NatToString(|validFiles|) + " imagen(es) lista(s)");
      assert State() == SetProgressEffect(loaded, 100.0, NatToString(|validFiles|) + " imagen(es) lista(s)");
    }

    /** The loop of `addFiles`: one entry per file, in order, each with a fresh id. */
    method AppendFiles(validFiles: seq<FileInfo>)
      requires Valid()
      modifies this
      ensures Valid()
      ensures images == old(images) + Uploaded(validFiles, old(nextId))
      ensures nextId == old(nextId) + |validFiles|
      ensures progress == old(progress) && progressLabel == old(progressLabel)
    {
      for index := 0 to |validFiles|
        invariant images == old(images) + Uploaded(validFiles[..index], old(nextId))
        invariant nextId == old(nextId) + index
        invariant progress == old(progress) && progressLabel == old(progressLabel)
      {
        var file := validFiles[index];
        images := images + [UploadedImage(nextId, file.name, file.size, file.mimeType, file.dataUrl)];
        nextId := nextId + 1;
        assert Uploaded(validFiles[..index + 1], old(nextId))
            == Uploaded(validFiles[..index], old(nextId)) + [Uploaded(validFiles, old(nextId))[index]];
      }
      assert validFiles[..|validFiles|] == validFiles;
      AppendKeepsIdsFresh(old(images), old(nextId), validFiles);
    }

    method SetImagesFromDataUrls(dataUrls: seq<string>)
      requires Valid()
      modifies this
      ensures Valid()
      ensures State() == SetImagesEffect(old(State()), dataUrls)
    {
      var urls := Filter(dataUrls, NonEmptyUrl);
      images := FromDataUrls(urls, nextId);
      nextId := nextId + |urls|;
      FromDataUrlsIdsFresh(urls, old(nextId));
      if |images| > 0 {
        SetProgress(100.0, NatToString(|images|) + " imagen(es) cargada(s)");
      } else {
        SetProgress(0.0, "Sin imágenes");
      }
    }

    method Clear()
      requires Valid()
      modifies this
      ensures Valid()
      ensures State() == ClearEffect(old(State()))
    {
      images := [];
      SetProgress(0.0, "Sin imágenes");
    }

    /** The preview's remove button for the entry with id `imageId`. */
    method RemoveImage(imageId: nat)
      requires Valid()
      modifies this
      ensures Valid()
      ensures State() == RemoveEffect(old(State()), imageId)
    {
      images := WithoutImage(images, imageId);
      WithoutImageKeepsIdsFresh(old(images), nextId, imageId);
      if |images| > 0 {
        SetProgress(100.0, NatToString(|images|) + " imagen(es) cargada(s)");
      } else {
        SetProgress(0.0, "Sin imágenes");
      }
    }

    /** `getImages`: the data URLs in buffer order. */
    function GetImages(): (urls: seq<string>)
      reads this
      ensures |urls| == |images|
      ensures forall i :: 0 <= i < |images| ==> urls[i] == images[i].dataUrl
    {
      DataUrls(images)
    }
  }

  /** `createAdminImageUploader`: refuses (the page throws) when the file input, the
      drop zone or the preview is missing; the size limit defaults to 3 MB. */
  method CreateAdminImageUploader(hasInput: bool, hasDropzone: bool, hasPreview: bool, maxSizeBytes: Option<nat>)
    returns (uploader: Option<ImageUploader>)
    ensures uploader.Some? <==> hasInput && hasDropzone && hasPreview
    ensures uploader.Some? ==> (
      && fresh(uploader.value)
      && uploader.value.State() == Initial
      && uploader.value.maxSizeBytes == maxSizeBytes.GetOr(MaxImageSizeBytes))
  {
    if !hasInput || !hasDropzone || !hasPreview {
      return None;
    }
    var u := new ImageUploader(maxSizeBytes.GetOr(MaxImageSizeBytes));
    uploader := Some(u);
  }
}
