/** The admin dashboard's counters and its form-submit handler (js/admin.js). */
module AdminDashboard {
  import opened Wrappers
  import opened Seqs
  import opened Text
  import opened Listing
  import opened Slug
  import opened PropertyIds
  import opened AdminStorage

  predicate IsSold(p: Property) {
    p.status == "sold"
  }

  predicate IsNotSold(p: Property) {
    p.status != "sold"
  }

  /** Every listing is counted once, as sold or as not sold. */
  lemma {:induction false} SoldSplit(ps: seq<Property>)
    ensures |Filter(ps, IsSold)| + |Filter(ps, IsNotSold)| == |ps|
  {
    if ps != [] {
      SoldSplit(ps[1..]);
    }
  }

  datatype Counters = Counters(total: nat, sold: nat, available: nat)

  /** `syncCounters`: the total, the listings whose status is `sold`, and the rest,
      which are exactly the listings whose status is not `sold`. */
  function SyncCounters(properties: seq<Property>): (c: Counters)
    ensures c.total == |properties|
    ensures c.sold == |Filter(properties, IsSold)|
    ensures c.available == |Filter(properties, IsNotSold)|
    ensures c.sold + c.available == c.total
  {
    SoldSplit(properties);
    var soldCount := |Filter(properties, IsSold)|;
    Counters(|properties|, soldCount, |properties| - soldCount)
  }

  /** The agent written when the field is left blank. */
  const DefaultAgent: string := "Equipo Xarcon"

  /** The form as the submit handler reads it: the id and title fields as typed, and
      the remaining fields already converted by the browser (numbers through
      `Number(...)`, an empty coordinate field as null, checkboxes as booleans). */
  datatype PropertyForm = PropertyForm(requestedId: string, title: string, details: Property)

  datatype SubmitOutcome =
    | MissingImages
    | Saved(record: Property, autoIdNotice: bool)

  /** The ids the new id must avoid: every merged id, except, when editing, the
      record's own requested id. */
  function UsedIds(merged: seq<Property>, mode: Mode, requestedId: string): (used: set<string>)
    ensures forall id :: id in used ==> id in Ids(merged)
    ensures forall id :: id in Ids(merged) && !(mode == Edit && id == requestedId && requestedId != []) ==> id in used
    ensures mode == Edit && requestedId != [] ==> requestedId !in used
  {
    var ids := set id | id in Ids(merged);
    if mode == Edit && requestedId != [] then ids - {requestedId} else ids
  }

  /** `properties.find((item) => item.id === id)`: the FIRST record with that id. */
  function FindById(properties: seq<Property>, id: string): (r: Option<Property>)
    ensures r.Some? ==> r.value in properties && r.value.id == id
    ensures r.Some? ==> exists i :: 0 <= i < |properties| && properties[i] == r.value
                                  && forall j :: 0 <= j < i ==> properties[j].id != id
    ensures r.None? ==> forall p :: p in properties ==> p.id != id
  {
    if properties == [] then None
    else if properties[0].id == id then Some(properties[0])
    else
      var r := FindById(properties[1..], id);
      assert r.Some? ==> exists i :: 0 <= i < |properties| && properties[i] == r.value
                                     && forall j :: 0 <= j < i ==> properties[j].id != id
      by {
        if r.Some? {
          var k :| 0 <= k < |properties[1..]| && properties[1..][k] == r.value
            && forall j :: 0 <= j < k ==> properties[1..][j].id != id;
          assert properties[k + 1] == r.value;
          assert forall j :: 0 <= j < k + 1 ==> properties[j].id != id by {
            forall j | 0 <= j < k + 1 ensures properties[j].id != id {
              if j > 0 {
                assert properties[j] == properties[1..][j - 1];
              }
            }
          }
        }
      }
      r
  }

  /** The record the form describes, before the date of an edited record is restored:
      text fields trimmed, a blank agent replaced, `sold` derived from the status. */
  function RecordFromForm(d: Property, id: string, title: string, images: seq<string>, today: string)
    : (p: Property)
    ensures p.id == id && p.title == title && p.images == images && p.dateAdded == today
    ensures p.sold <==> p.status == "sold"
    ensures p.status == d.status && p.price == d.price && p.propertyType == d.propertyType
    ensures p.agent != []
    ensures p.agent == (if Trim(d.agent) != [] then Trim(d.agent) else DefaultAgent)
    ensures p.location == Trim(d.location) && p.city == Trim(d.city)
    ensures p.address == Trim(d.address) && p.description == Trim(d.description)
    ensures p.latitude == d.latitude && p.longitude == d.longitude
    ensures p.featured == d.featured && p.opportunity == d.opportunity
  {
    var agent := Trim(d.agent);
    d.(
      id := id,
      title := title,
      location := Trim(d.location),
      images := images,
      description := Trim(d.description),
      sold := d.status == "sold",
      dateAdded := today,
      city := Trim(d.city),
      address := Trim(d.address),
      agent := if agent == [] then DefaultAgent else agent)
  }

  /** The date an edited record keeps: that of the merged record with its id, when it has one. */
  function KeptDate(merged: seq<Property>, mode: Mode, id: string, today: string): (d: string)
    ensures mode != Edit ==> d == today
    ensures d == today || exists p :: p in merged && p.id == id && p.dateAdded == d && d != []
    ensures mode == Edit && FindById(merged, id).Some? && FindById(merged, id).value.dateAdded != [] ==>
      d == FindById(merged, id).value.dateAdded
  {
    if mode == Edit && FindById(merged, id).Some? && FindById(merged, id).value.dateAdded != []
    then FindById(merged, id).value.dateAdded
    else today
  }

  /** The id the submit handler settles on, given the trimmed title and requested id:
      minted against the ids in use (less the record's own id when editing), with
      the notice shown when an automatic id differs from the title's slug. */
  method MintId(mode: Mode, title: string, requestedId: string, merged: seq<Property>)
    returns (id: string, autoIdNotice: bool)
    requires Trim(requestedId) == requestedId
    ensures id !in UsedIds(merged, mode, requestedId)
    ensures mode == Edit && requestedId != [] ==> id == requestedId
    ensures requestedId != [] && requestedId !in Ids(merged) ==> id == requestedId
    ensures autoIdNotice == (requestedId == [] && id != CreateSlug(title))
  {
    var usedIds := UsedIds(merged, mode, requestedId);
    id := GenerateUniquePropertyId(title, usedIds, requestedId);
    autoIdNotice := requestedId == [] && id != CreateSlug(title);
  }

  /** The record the submit handler saves: the minted id, the form's fields, and,
      for an edited record, the date of its merged original. */
  method PrepareRecord(uploadedImages: seq<string>, mode: Mode, form: PropertyForm,
                       merged: seq<Property>, today: string)
    returns (rec: Property, autoIdNotice: bool)
    ensures rec.id !in UsedIds(merged, mode, Trim(form.requestedId))
    ensures mode == Edit && Trim(form.requestedId) != [] ==> rec.id == Trim(form.requestedId)
    ensures Trim(form.requestedId) != [] && Trim(form.requestedId) !in Ids(merged) ==>
      rec.id == Trim(form.requestedId)
    ensures rec == RecordFromForm(form.details, rec.id, Trim(form.title), uploadedImages, today)
      .(dateAdded := KeptDate(merged, mode, rec.id, today))
    ensures autoIdNotice == (Trim(form.requestedId) == [] && rec.id != CreateSlug(Trim(form.title)))
  {
    var title := Trim(form.title);
    var requestedId := Trim(form.requestedId);
    TrimIdempotent(form.requestedId, requestedId);
    var currentId;
    currentId, autoIdNotice := MintId(mode, title, requestedId, merged);
    rec := RecordFromForm(form.details, currentId, title, uploadedImages, today);
    if mode == Edit {
      var existing := FindById(merged, currentId);
      if existing.Some? && existing.value.dateAdded != [] {
        rec := rec.(dateAdded := existing.value.dateAdded);
      }
    }
  }

  /** The submit handler: refuse, writing nothing, when no image is uploaded;
      otherwise save the prepared record through `normalize` (the catalogue's
      normaliser, which keeps ids). `merged` is the merged catalogue, `today` the
      date stamp. */
  method SubmitPropertyForm(
    store: AdminStore, uploadedImages: seq<string>, mode: Mode, form: PropertyForm,
    merged: seq<Property>, originMap: map<string, Origin>, today: string,
    normalize: Property -> Property)
    returns (outcome: SubmitOutcome)
    requires forall p :: normalize(p).id == p.id
    modifies store
    ensures uploadedImages == [] ==> outcome == MissingImages && store.State() == old(store.State())
    ensures uploadedImages != [] ==> (
      && outcome.Saved?
      && outcome.record.id !in UsedIds(merged, mode, Trim(form.requestedId))
      && normalize(outcome.record).id == outcome.record.id
      && (mode == Edit && Trim(form.requestedId) != [] ==> outcome.record.id == Trim(form.requestedId))
      && outcome.record.images == uploadedImages
      && outcome.record == RecordFromForm(form.details, outcome.record.id, Trim(form.title), uploadedImages, today)
        .(dateAdded := KeptDate(merged, mode, outcome.record.id, today))
      && outcome.autoIdNotice == (Trim(form.requestedId) == [] && outcome.record.id != CreateSlug(Trim(form.title)))
      && store.State() == SaveEffect(old(store.State()), normalize(outcome.record), mode, originMap))
  {
    if uploadedImages == [] {
      return MissingImages;
    }
    var rec, notice := PrepareRecord(uploadedImages, mode, form, merged, today);
    store.SaveProperty(normalize(rec), mode, originMap);
    outcome := Saved(rec, notice);
  }
}
