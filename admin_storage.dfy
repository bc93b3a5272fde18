/** The admin panel's storage contract (js/admin.js): the custom-property list
    with its two legacy slots, the overrides map (id -> record) and the deleted-id
    set, how they are read, and how saving and deleting a listing rewrites them. */
module AdminStorage {
  import opened Wrappers
  import opened Seqs
  import opened Listing

  /** What `safeParse(localStorage.getItem(key) || text, fallback)` finds under a key:
      nothing (missing or empty text, so the default text is parsed), text that is
      not JSON, JSON `null`, or a parsed value. */
  datatype Slot<T> = Absent | Malformed | Null | Holds(value: T)

  /** `safeParse`: the parsed value, or `fallback` when the text does not parse or
      parses to null. A missing slot parses its default text, which is `fallback`. */
  function SafeParse<T>(slot: Slot<T>, fallback: T): (r: T)
    ensures slot.Holds? ==> r == slot.value
    ensures slot.Malformed? || slot.Null? || slot.Absent? ==> r == fallback
  {
    match slot
    case Holds(v) => v
    case _ => fallback
  }

  /** A parsed property-list slot: a JSON array of records, or JSON of another shape. */
  datatype JsonList = Array(items: seq<Property>) | NotArray

  /** The five storage keys the admin panel uses for listings. */
  datatype StoreState = StoreState(
    properties: Slot<JsonList>,
    primaryLegacy: Slot<JsonList>,
    legacy: Slot<JsonList>,
    overrides: Slot<map<string, Property>>,
    deleted: Slot<seq<string>>)

  /** `Array.isArray(x) && x.length`: the items of a slot holding a non-empty array. */
  function NonEmptyArray(slot: Slot<JsonList>): (r: Option<seq<Property>>)
    ensures r.Some? ==> r.value != [] && slot == Holds(Array(r.value))
    ensures slot.Holds? && slot.value.Array? && slot.value.items != [] ==> r.Some?
  {
    match SafeParse(slot, Array([]))
    case Array(items) => if items != [] then Some(items) else None
    case NotArray => None
  }

  /** What `getStoredProperties` returns and the storage it leaves behind. */
  datatype Read = Read(list: seq<Property>, state: StoreState)

  /** `getStoredProperties`: the primary list when it is a non-empty array, with
      nothing written; otherwise the first non-empty legacy list (the primary legacy
      slot first), copied into the primary slot; otherwise the empty list. */
  function ReadStored(s: StoreState): (r: Read)
    ensures r.state == s.(properties := r.state.properties)
    ensures r.list != [] ==> NonEmptyArray(r.state.properties) == Some(r.list)
    ensures NonEmptyArray(s.properties).Some? ==>
      r.list == NonEmptyArray(s.properties).value && r.state == s
    ensures NonEmptyArray(s.properties).None? && NonEmptyArray(s.primaryLegacy).Some? ==>
      r.list == NonEmptyArray(s.primaryLegacy).value
    ensures (NonEmptyArray(s.properties).None? && NonEmptyArray(s.primaryLegacy).None?
      && NonEmptyArray(s.legacy).Some?) ==> r.list == NonEmptyArray(s.legacy).value
    ensures r.list == [] <==>
      NonEmptyArray(s.properties).None? && NonEmptyArray(s.primaryLegacy).None? && NonEmptyArray(s.legacy).None?
    ensures r.list == [] ==> r.state == s
  {
    match (NonEmptyArray(s.properties), NonEmptyArray(s.primaryLegacy), NonEmptyArray(s.legacy))
    case (Some(items), _, _) => Read(items, s)
    case (None, Some(items), _) => Read(items, s.(properties := Holds(Array(items))))
    case (None, None, Some(items)) => Read(items, s.(properties := Holds(Array(items))))
    case (None, None, None) => Read([], s)
  }

  /** The migration happens at most once: reading again returns the same list and
      writes nothing. */
  lemma ReadStoredIsStable(s: StoreState)
    ensures ReadStored(ReadStored(s).state) == Read(ReadStored(s).list, ReadStored(s).state)
  {
  }

  /** `getOverrides`. */
  function GetOverrides(s: StoreState): map<string, Property> {
    SafeParse(s.overrides, map[])
  }

  /** `getDeletedIds`. */
  function GetDeletedIds(s: StoreState): seq<string> {
    SafeParse(s.deleted, [])
  }

  /** `list.filter((item) => item.id !== id)`. */
  function WithoutId(list: seq<Property>, id: string): (r: seq<Property>)
    ensures forall p :: p in r ==> p in list && p.id != id
    ensures forall p :: p in list && p.id != id ==> p in r
  {
    Filter(list, (p: Property) => p.id != id)
  }

  /** `list.map((item) => (item.id === n.id ? n : item))`. */
  function ReplaceById(list: seq<Property>, n: Property): (r: seq<Property>)
    ensures |r| == |list|
    ensures forall i :: 0 <= i < |list| && list[i].id == n.id ==> r[i] == n
    ensures forall i :: 0 <= i < |list| && list[i].id != n.id ==> r[i] == list[i]
  {
    seq(|list|, i requires 0 <= i < |list| => if list[i].id == n.id then n else list[i])
  }

  /** A record whose id is absent is not added by the replacement. */
  lemma ReplaceByIdAbsent(list: seq<Property>, n: Property)
    requires forall p :: p in list ==> p.id != n.id
    ensures ReplaceById(list, n) == list
  {
    var r := ReplaceById(list, n);
    assert forall i :: 0 <= i < |list| ==> r[i] == list[i] by {
      forall i | 0 <= i < |list| ensures r[i] == list[i] { assert list[i] in list; }
    }
  }

  /** `set.delete(id)` on the deleted-id set, kept as its insertion-ordered contents. */
  function RemoveId(ids: seq<string>, id: string): (r: seq<string>)
    ensures forall x :: x in r ==> x in ids && x != id
    ensures forall x :: x in ids && x != id ==> x in r
    ensures Distinct(ids) ==> Distinct(r)
  {
    var keep := (x: string) => x != id;
    assert Distinct(ids) ==> Distinct(Filter(ids, keep)) by {
      if Distinct(ids) { FilterDistinct(ids, keep); }
    }
    Filter(ids, keep)
  }

  /** `set.add(id)`. */
  function AddId(ids: seq<string>, id: string): (r: seq<string>)
    ensures Distinct(ids) ==> Distinct(r)
    ensures forall x :: x in r <==> x in ids || x == id
  {
    if id in ids then ids else ids + [id]
  }

  datatype Mode = Create | Edit

  /** How the admin panel classifies an id: in the static catalogue only, or stored locally. */
  datatype Origin = Default | Custom

  /** `originMap[id] === origin`: an id outside the map matches no origin. */
  predicate HasOrigin(origins: map<string, Origin>, id: string, origin: Origin) {
    id in origins && origins[id] == origin
  }

  /** The record stored as an override: `{...normalized, sold: normalized.status === 'sold'}`. */
  function AsOverride(n: Property): (o: Property)
    ensures o.sold <==> n.status == "sold"
    ensures o == n.(sold := o.sold)
  {
    n.(sold := n.status == "sold")
  }

  /** The storage after `saveProperty(normalized, mode)` with the origin map at hand. */
  function SaveEffect(s: StoreState, n: Property, mode: Mode, origins: map<string, Origin>): (r: StoreState)
    ensures r.primaryLegacy == s.primaryLegacy && r.legacy == s.legacy
    ensures n.id !in GetDeletedIds(r) && Distinct(GetDeletedIds(r))
    ensures forall x :: x in GetDeletedIds(r) <==> x in GetDeletedIds(s) && x != n.id
    ensures mode == Create || !HasOrigin(origins, n.id, Default) ==> GetOverrides(r) == GetOverrides(s)
    ensures mode == Edit && HasOrigin(origins, n.id, Default) ==>
      GetOverrides(r) == GetOverrides(s)[n.id := AsOverride(n)]
  {
    var read := ReadStored(s);
    var deletedIds := RemoveId(Dedup(GetDeletedIds(s)), n.id);
    if mode == Create then
      read.state.(properties := Holds(Array([n] + WithoutId(read.list, n.id))), deleted := Holds(deletedIds))
    else if HasOrigin(origins, n.id, Default) then
      read.state.(overrides := Holds(GetOverrides(s)[n.id := AsOverride(n)]), deleted := Holds(deletedIds))
    else
      read.state.(properties := Holds(Array(ReplaceById(read.list, n))), deleted := Holds(deletedIds))
  }

  /** The storage after `deletePropertyById(id)` with the origin map at hand. */
  function DeleteEffect(s: StoreState, id: string, origins: map<string, Origin>): (r: StoreState)
    ensures r.primaryLegacy == s.primaryLegacy && r.legacy == s.legacy
    ensures Distinct(GetDeletedIds(r))
    ensures HasOrigin(origins, id, Custom) ==>
      GetOverrides(r) == GetOverrides(s) && forall x :: x in GetDeletedIds(r) <==> x in GetDeletedIds(s)
    ensures !HasOrigin(origins, id, Custom) ==>
      && GetOverrides(r) == GetOverrides(s) - {id}
      && (forall x :: x in GetDeletedIds(r) <==> x in GetDeletedIds(s) || x == id)
      && ReadStored(r).list == ReadStored(s).list
  {
    var read := ReadStored(s);
    var deletedIds := Dedup(GetDeletedIds(s));
    if HasOrigin(origins, id, Custom) then
      read.state.(properties := Holds(Array(WithoutId(read.list, id))), deleted := Holds(deletedIds))
    else
      read.state.(overrides := Holds(GetOverrides(s) - {id}), deleted := Holds(AddId(deletedIds, id)))
  }

  /** Saving in create mode puts the record at the head of the stored list with no
      other entry of the same id, leaves the overrides alone and takes the id out
      of the deleted set. */
  lemma SaveCreate(s: StoreState, n: Property, origins: map<string, Origin>)
    ensures var r := SaveEffect(s, n, Create, origins);
      && ReadStored(r).list == [n] + WithoutId(ReadStored(s).list, n.id)
      && (forall i :: 1 <= i < |ReadStored(r).list| ==> ReadStored(r).list[i].id != n.id)
      && GetOverrides(r) == GetOverrides(s)
      && n.id !in GetDeletedIds(r)
      && (forall x :: x in GetDeletedIds(s) && x != n.id ==> x in GetDeletedIds(r))
      && (forall x :: x in GetDeletedIds(r) ==> x in GetDeletedIds(s))
      && r.primaryLegacy == s.primaryLegacy && r.legacy == s.legacy
  {
    var r := SaveEffect(s, n, Create, origins);
    var list := [n] + WithoutId(ReadStored(s).list, n.id);
    assert r.properties == Holds(Array(list));
    forall i | 1 <= i < |list| ensures list[i].id != n.id {
      assert list[i] in WithoutId(ReadStored(s).list, n.id);
    }
  }

  /** Editing a listing of the static catalogue records an override whose `sold`
      flag agrees with its status; the stored list is left as it reads. */
  lemma SaveEditDefault(s: StoreState, n: Property, origins: map<string, Origin>)
    requires HasOrigin(origins, n.id, Default)
    ensures var r := SaveEffect(s, n, Edit, origins);
      && GetOverrides(r) == GetOverrides(s)[n.id := AsOverride(n)]
      && (GetOverrides(r)[n.id].sold <==> n.status == "sold")
      && ReadStored(r).list == ReadStored(s).list
      && n.id !in GetDeletedIds(r)
      && (forall x :: x in GetDeletedIds(s) && x != n.id ==> x in GetDeletedIds(r))
  {
  }

  /** Editing any other listing replaces the same-id entries of the stored list in
      place: same length, other entries unchanged, nothing added when the id is
      absent; the overrides are left alone. */
  lemma SaveEditCustom(s: StoreState, n: Property, origins: map<string, Origin>)
    requires !HasOrigin(origins, n.id, Default)
    ensures var r := SaveEffect(s, n, Edit, origins);
      && ReadStored(r).list == ReplaceById(ReadStored(s).list, n)
      && |ReadStored(r).list| == |ReadStored(s).list|
      && ((forall p :: p in ReadStored(s).list ==> p.id != n.id) ==> ReadStored(r).list == ReadStored(s).list)
      && GetOverrides(r) == GetOverrides(s)
      && n.id !in GetDeletedIds(r)
  {
    var r := SaveEffect(s, n, Edit, origins);
    var list := ReadStored(s).list;
    if (forall p :: p in list ==> p.id != n.id) {
      ReplaceByIdAbsent(list, n);
    }
    if list == [] {
      assert ReplaceById(list, n) == [];
    }
  }

  /** Deleting a locally stored listing writes the stored list without it and leaves
      the overrides and the deleted set's members alone. While other listings
      remain, the list then reads without it. */
  lemma DeleteCustom(s: StoreState, id: string, origins: map<string, Origin>)
    requires HasOrigin(origins, id, Custom)
    ensures var r := DeleteEffect(s, id, origins);
      && r.properties == Holds(Array(WithoutId(ReadStored(s).list, id)))
      && (WithoutId(ReadStored(s).list, id) != [] ==>
            ReadStored(r).list == WithoutId(ReadStored(s).list, id)
            && forall p :: p in ReadStored(r).list ==> p.id != id)
      && GetOverrides(r) == GetOverrides(s)
      && (forall x :: x in GetDeletedIds(r) <==> x in GetDeletedIds(s))
  {
  }

  /** Deleting any other listing drops its override and adds its id to the deleted
      set; the stored list is left as it reads. */
  lemma DeleteOther(s: StoreState, id: string, origins: map<string, Origin>)
    requires !HasOrigin(origins, id, Custom)
    ensures var r := DeleteEffect(s, id, origins);
      && GetOverrides(r) == GetOverrides(s) - {id}
      && id in GetDeletedIds(r)
      && (forall x :: x in GetDeletedIds(r) <==> x in GetDeletedIds(s) || x == id)
      && Distinct(GetDeletedIds(r))
      && ReadStored(r).list == ReadStored(s).list
  {
  }

  /** As written, a listing migrated from the primary legacy slot comes back after it
      is deleted as the last custom listing: the emptied primary slot sends the next
      read to the legacy slot, which was never cleared. */
  lemma DeleteLastCustomRestoresLegacy(s: StoreState, id: string, origins: map<string, Origin>, p: Property)
    requires p.id == id && HasOrigin(origins, id, Custom)
    requires s.properties == Holds(Array([p])) && s.primaryLegacy == Holds(Array([p]))
    ensures ReadStored(DeleteEffect(s, id, origins)).list == [p]
  {
    var r := DeleteEffect(s, id, origins);
    assert WithoutId([p], id) == [];
    assert NonEmptyArray(r.properties).None?;
  }

  /** The intended read: the legacy slots are consulted only while the primary slot
      holds no array at all, so a list the panel emptied stays empty. */
  function ReadStoredIntended(s: StoreState): (r: Read)
    ensures s.properties.Holds? && s.properties.value.Array? ==>
      r == Read(s.properties.value.items, s)
  {
    match SafeParse(s.properties, NotArray)
    case Array(items) => Read(items, s)
    case NotArray =>
      match (NonEmptyArray(s.primaryLegacy), NonEmptyArray(s.legacy))
      case (Some(items), _) => Read(items, s.(properties := Holds(Array(items))))
      case (None, Some(items)) => Read(items, s.(properties := Holds(Array(items))))
      case (None, None) => Read([], s)
  }

  /** `deletePropertyById` over the intended read. */
  function DeleteEffectIntended(s: StoreState, id: string, origins: map<string, Origin>): (r: StoreState)
    ensures r.primaryLegacy == s.primaryLegacy && r.legacy == s.legacy
    ensures Distinct(GetDeletedIds(r))
    ensures HasOrigin(origins, id, Custom) ==>
      GetOverrides(r) == GetOverrides(s) && forall x :: x in GetDeletedIds(r) <==> x in GetDeletedIds(s)
    ensures !HasOrigin(origins, id, Custom) ==>
      && GetOverrides(r) == GetOverrides(s) - {id}
      && (forall x :: x in GetDeletedIds(r) <==> x in GetDeletedIds(s) || x == id)
  {
    var read := ReadStoredIntended(s);
    var deletedIds := Dedup(GetDeletedIds(s));
    if HasOrigin(origins, id, Custom) then
      read.state.(properties := Holds(Array(WithoutId(read.list, id))), deleted := Holds(deletedIds))
    else
      read.state.(overrides := Holds(GetOverrides(s) - {id}), deleted := Holds(AddId(deletedIds, id)))
  }

  /** With the intended read, a deleted custom listing is gone from every later read. */
  lemma DeleteIntendedRemovesForGood(s: StoreState, id: string, origins: map<string, Origin>)
    requires HasOrigin(origins, id, Custom)
    ensures forall p :: p in ReadStoredIntended(DeleteEffectIntended(s, id, origins)).list ==> p.id != id
    ensures ReadStoredIntended(DeleteEffectIntended(s, id, origins)).list
      == WithoutId(ReadStoredIntended(s).list, id)
  {
  }

  /** `defaults.forEach(...)`: each catalogue id is `custom` when stored locally,
      `default` otherwise. */
  function ClassifyDefaults(m: map<string, Origin>, defaults: seq<Property>, customIds: set<string>)
    : (r: map<string, Origin>)
    ensures forall id :: id in r <==> id in m || id in Ids(defaults)
    ensures forall id :: id in Ids(defaults) ==> r[id] == (if id in customIds then Custom else Default)
    ensures forall id :: id in m && id !in Ids(defaults) ==> r[id] == m[id]
    decreases |defaults|
  {
    if defaults == [] then m
    else
      var p := defaults[0];
      assert forall id :: id in Ids(defaults) <==> id == p.id || id in Ids(defaults[1..]) by {
        assert Ids(defaults) == [p.id] + Ids(defaults[1..]);
      }
      ClassifyDefaults(m[p.id := if p.id in customIds then Custom else Default], defaults[1..], customIds)
  }

  /** `customIds.forEach((id) => { originMap[id] = 'custom'; })`. */
  function MarkCustom(m: map<string, Origin>, ids: seq<string>): (r: map<string, Origin>)
    ensures forall id :: id in r <==> id in m || id in ids
    ensures forall id :: id in ids ==> r[id] == Custom
    ensures forall id :: id in m && id !in ids ==> r[id] == m[id]
    decreases |ids|
  {
    if ids == [] then m
    else
      assert forall id :: id in ids <==> id == ids[0] || id in ids[1..] by {
        assert ids == [ids[0]] + ids[1..];
      }
      MarkCustom(m[ids[0] := Custom], ids[1..])
  }

  /** `getPropertyOriginMap`, given what the catalogue fetch produced (`None` when
      the response was not ok) and the stored list: every stored id is `custom`, a
      catalogue id is `default` exactly when it is not also stored, and nothing else
      is classified. */
  function OriginMap(fetched: Option<seq<Property>>, stored: seq<Property>): (m: map<string, Origin>)
    ensures forall id :: id in m <==> id in Ids(fetched.GetOr([])) || id in Ids(stored)
    ensures forall id :: id in Ids(stored) ==> m[id] == Custom
    ensures forall id :: id in Ids(fetched.GetOr([])) && id !in Ids(stored) ==> m[id] == Default
  {
    var customIds := Ids(stored);
    MarkCustom(ClassifyDefaults(map[], fetched.GetOr([]), set id | id in customIds), customIds)
  }

  /** The browser's local storage, one field per key. */
  class AdminStore {
    var properties: Slot<JsonList>
    var primaryLegacy: Slot<JsonList>
    var legacy: Slot<JsonList>
    var overrides: Slot<map<string, Property>>
    var deleted: Slot<seq<string>>

    function State(): StoreState
      reads this
    {
      StoreState(properties, primaryLegacy, legacy, overrides, deleted)
    }

    constructor (initial: StoreState)
      ensures State() == initial
    {
      properties := initial.properties;
      primaryLegacy := initial.primaryLegacy;
      legacy := initial.legacy;
      overrides := initial.overrides;
      deleted := initial.deleted;
    }

    /** `getStoredProperties`, writing a migrated legacy list through. */
    method GetStoredProperties() returns (list: seq<Property>)
      modifies this
      ensures list == ReadStored(old(State())).list
      ensures State() == ReadStored(old(State())).state
    {
      var primary := SafeParse(properties, Array([]));
      if primary.Array? && primary.items != [] {
        return primary.items;
      }

      var primaryLegacyList := SafeParse(primaryLegacy, Array([]));
      if primaryLegacyList.Array? && primaryLegacyList.items != [] {
        properties := Holds(Array(primaryLegacyList.items));
        return primaryLegacyList.items;
      }

      var legacyList := SafeParse(legacy, Array([]));
      if legacyList.Array? && legacyList.items != [] {
        properties := Holds(Array(legacyList.items));
        return legacyList.items;
      }

      list := if primary.Array? then primary.items else [];
    }

    /** `saveProperty(normalized, mode)` with the origin map at hand. */
    method SaveProperty(normalized: Property, mode: Mode, originMap: map<string, Origin>)
      modifies this
      ensures State() == SaveEffect(old(State()), normalized, mode, originMap)
    {
      var storedProperties := GetStoredProperties();
      var overridesMap := SafeParse(overrides, map[]);
      var deletedIds := Dedup(SafeParse(deleted, []));
      deletedIds := RemoveId(deletedIds, normalized.id);

      if mode == Create {
        var withoutDuplicate := WithoutId(storedProperties, normalized.id);
        withoutDuplicate := [normalized] + withoutDuplicate;
        properties := Holds(Array(withoutDuplicate));
        deleted := Holds(deletedIds);
        return;
      }

      if HasOrigin(originMap, normalized.id, Default) {
        overridesMap := overridesMap[normalized.id := AsOverride(normalized)];
        overrides := Holds(overridesMap);
      } else {
        var updated := ReplaceById(storedProperties, normalized);
        properties := Holds(Array(updated));
      }

      deleted := Holds(deletedIds);
    }

    /** `deletePropertyById(propertyId)` with the origin map at hand. */
    method DeletePropertyById(propertyId: string, originMap: map<string, Origin>)
      modifies this
      ensures State() == DeleteEffect(old(State()), propertyId, originMap)
    {
      var stored := GetStoredProperties();
      var overridesMap := SafeParse(overrides, map[]);
      var deletedIds := Dedup(SafeParse(deleted, []));
      var isCustom := HasOrigin(originMap, propertyId, Custom);

      if isCustom {
        properties := Holds(Array(WithoutId(stored, propertyId)));
      } else {
        overridesMap := overridesMap - {propertyId};
        overrides := Holds(overridesMap);
        deletedIds := AddId(deletedIds, propertyId);
      }

      deleted := Holds(deletedIds);
    }
  }
}
