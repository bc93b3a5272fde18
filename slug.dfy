/** `createSlug` (js/admin.js): lower-case the title, turn every run of characters
    other than `a-z`/`0-9` into one `-`, and drop a leading and a trailing `-`. */
module Slug {
  import opened Seqs

  /** `toLowerCase` on ASCII letters. */
  function LowerChar(c: char): (r: char)
    ensures 'A' <= c <= 'Z' ==> 'a' <= r <= 'z'
    ensures !('A' <= c <= 'Z') ==> r == c
  {
    if 'A' <= c <= 'Z' then (c as int + 32) as char else c
  }

  function Lower(s: string): (r: string)
    ensures |r| == |s| && forall i :: 0 <= i < |s| ==> r[i] == LowerChar(s[i])
  {
    seq(|s|, i requires 0 <= i < |s| => LowerChar(s[i]))
  }

  /** The characters a slug keeps: `[a-z0-9]`. */
  predicate IsSlugChar(c: char) {
    'a' <= c <= 'z' || '0' <= c <= '9'
  }

  /** No two hyphens in a row. */
  predicate NoDoubleHyphen(s: string) {
    forall i :: 0 <= i < |s| - 1 ==> !(s[i] == '-' && s[i + 1] == '-')
  }

  /** Only slug characters and hyphens. */
  predicate SlugAlphabet(s: string) {
    forall c :: c in s ==> IsSlugChar(c) || c == '-'
  }

  /** What `createSlug` promises: `[a-z0-9-]*`, no `--`, no hyphen at either end. */
  predicate IsSlug(s: string) {
    SlugAlphabet(s) && NoDoubleHyphen(s) && (s != [] ==> s[0] != '-' && s[|s| - 1] != '-')
  }

  /** `.replace(/[^a-z0-9]+/g, '-')`: a character outside `[a-z0-9]` joins the hyphen
      that the rest of its run already turned into. */
  function CollapseRuns(s: string): (r: string)
    ensures SlugAlphabet(r) && NoDoubleHyphen(r)
    ensures s != [] && !IsSlugChar(s[0]) ==> r != [] && r[0] == '-'
    ensures s != [] && IsSlugChar(s[0]) ==> r != [] && r[0] == s[0]
    ensures Filter(r, IsSlugChar) == Filter(s, IsSlugChar)
  {
    if s == [] then []
    else
      var rest := CollapseRuns(s[1..]);
      if IsSlugChar(s[0]) then
        assert ([s[0]] + rest)[1..] == rest;
        [s[0]] + rest
      else if rest != [] && rest[0] == '-' then rest
      else
        HyphenFilteredOut(rest);
        "-" + rest
  }

  /** A hyphen is not a slug character, so filtering drops it at either end. */
  lemma HyphenFilteredOut(r: string)
    ensures Filter("-" + r, IsSlugChar) == Filter(r, IsSlugChar)
    ensures Filter(r + "-", IsSlugChar) == Filter(r, IsSlugChar)
  {
    assert Filter("-", IsSlugChar) == [] by {
      assert "-"[1..] == [];
    }
    FilterAppend("-", r, IsSlugChar);
    FilterAppend(r, "-", IsSlugChar);
  }

  /** `.replace(/(^-|-$)/g, '')`: one leading and one trailing hyphen removed. */
  function StripEndHyphens(s: string): (r: string)
    requires SlugAlphabet(s) && NoDoubleHyphen(s)
    ensures IsSlug(r)
    ensures s == r || s == "-" + r || s == r + "-" || s == "-" + r + "-"
  {
    var head := if s != [] && s[0] == '-' then s[1..] else s;
    assert NoDoubleHyphen(head) && SlugAlphabet(head);
    assert head != [] ==> head[0] != '-';
    var r := if head != [] && head[|head| - 1] == '-' then head[..|head| - 1] else head;
    assert head == r || head == r + "-";
    assert s == head || s == "-" + head;
    assert SlugAlphabet(r) by {
      forall c | c in r ensures IsSlugChar(c) || c == '-' { assert c in head; }
    }
    r
  }

  /** `createSlug(text)`, for text already free of diacritics: a slug that keeps
      every letter and digit of the lower-cased text, in order, and nothing else
      but single hyphens between them. */
  function CreateSlug(text: string): (slug: string)
    ensures IsSlug(slug)
    ensures Filter(slug, IsSlugChar) == Filter(Lower(text), IsSlugChar)
  {
    var collapsed := CollapseRuns(Lower(text));
    var slug := StripEndHyphens(collapsed);
    HyphenFilteredOut(slug);
    HyphenFilteredOut("-" + slug);
    assert "-" + slug + "-" == ("-" + slug) + "-";
    slug
  }

  /** A string in the slug alphabet without `--` passes the run collapsing unchanged. */
  lemma {:induction false} CollapseRunsOfSlugText(s: string)
    requires SlugAlphabet(s) && NoDoubleHyphen(s)
    ensures CollapseRuns(s) == s
  {
    if s != [] {
      var t := s[1..];
      assert SlugAlphabet(t) && NoDoubleHyphen(t);
      CollapseRunsOfSlugText(t);
      if !IsSlugChar(s[0]) {
        assert s[0] == '-';
        assert t != [] ==> t[0] != '-' by { assert t != [] ==> s[1] == t[0]; }
        assert s == "-" + t;
      } else {
        assert s == [s[0]] + t;
      }
    }
  }

  /** Slugging a slug gives it back, so `createSlug` is idempotent. */
  lemma CreateSlugIdempotent(text: string)
    ensures CreateSlug(CreateSlug(text)) == CreateSlug(text)
  {
    var s := CreateSlug(text);
    assert Lower(s) == s by {
      forall i | 0 <= i < |s| ensures LowerChar(s[i]) == s[i] { assert s[i] in s; }
    }
    CollapseRunsOfSlugText(s);
  }
}
