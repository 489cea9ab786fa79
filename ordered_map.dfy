/**
 * The client-side common services: the insertion-ordered `Map` (an array of
 * keys beside a plain object holding the values) and the start-up choice of
 * language and application space.
 */
module CommonService {
  import opened Wrappers
  import opened Sequences

  /**
   * A JavaScript value as the map sees it: `null`/`undefined`, a stored value,
   * or a member that `data` inherits from `Object.prototype` (a function, or
   * the prototype itself for `__proto__`).
   */
  datatype Slot<V> = Nullish | Present(value: V) | Inherited

  /** The names `{}` inherits from `Object.prototype`; a lookup of one of them is never `null`. */
  const ProtoMembers: set<string> := {
    "constructor", "hasOwnProperty", "isPrototypeOf", "propertyIsEnumerable", "toLocaleString",
    "toString", "valueOf", "__defineGetter__", "__defineSetter__", "__lookupGetter__",
    "__lookupSetter__", ProtoKey}

  /** Assigning to `__proto__` runs the prototype setter and creates no own property. */
  const ProtoKey: string := "__proto__"

  /** The two fields of a `Map`: `keys` and `data` */
  datatype MapState<V> = MapState(keys: seq<string>, data: map<string, Slot<V>>)

  /** `data[key]`: an own property, else an inherited member, else `undefined` */
  function Lookup<V>(m: MapState<V>, key: string): Slot<V> {
    if key in m.data then m.data[key] else if key in ProtoMembers then Inherited else Nullish
  }

  /**
   * `put`: a key whose value reads as `null` is (re-)appended to `keys`; the
   * assignment stores an own property, except for `__proto__`.
   */
  function AfterPut<V>(m: MapState<V>, key: string, value: Slot<V>): MapState<V> {
    MapState(if Lookup(m, key).Nullish? then m.keys + [key] else m.keys,
             if key == ProtoKey then m.data else m.data[key := value])
  }

  /** `remove`: the first occurrence is spliced out of `keys` and the property deleted. */
  function AfterRemove<V>(m: MapState<V>, key: string): MapState<V> {
    var i := FirstIndex(m.keys, key);
    MapState(if i > -1 then m.keys[..i] + m.keys[i + 1..] else m.keys, m.data - {key})
  }

  /** `entries()`: a key/value pair per element of `keys`, in order */
  function EntriesOf<V>(m: MapState<V>): seq<(string, Slot<V>)> {
    seq(|m.keys|, i requires 0 <= i < |m.keys| => (m.keys[i], Lookup(m, m.keys[i])))
  }

  predicate Distinct(s: seq<string>) {
    forall i, j :: 0 <= i < j < |s| ==> s[i] != s[j]
  }

  /**
   * The state every sequence of `put`s of non-null values and `remove`s keeps:
   * each key listed once, listed exactly when the object holds it, and no
   * stored value reads as `null`; `__proto__` is never an own property.
   */
  ghost predicate Tidy<V>(m: MapState<V>) {
    && ProtoKey !in m.data
    && Distinct(m.keys)
    && (forall k :: k in m.keys <==> k in m.data)
    && (forall k :: k in m.data ==> m.data[k].Present?)
  }

  /**
   * `get` returns the value most recently `put` for that key and is unaffected
   * for other keys; a `put` of `__proto__` changes nothing `get` reads.
   */
  lemma PutThenGet<V>(m: MapState<V>, key: string, value: Slot<V>, other: string)
    ensures key != ProtoKey ==> Lookup(AfterPut(m, key, value), key) == value
    ensures key == ProtoKey ==> Lookup(AfterPut(m, key, value), key) == Lookup(m, key)
    ensures other != key ==> Lookup(AfterPut(m, key, value), other) == Lookup(m, other)
  {
  }

  /**
   * In a tidy map, `put` of a new key appends it, unless the key names an
   * inherited member, and `put` of a listed key keeps the key order.
   */
  lemma PutKeyOrder<V>(m: MapState<V>, key: string, value: Slot<V>)
    requires Tidy(m)
    ensures key !in m.keys && key !in ProtoMembers ==> AfterPut(m, key, value).keys == m.keys + [key]
    ensures key !in m.keys && key in ProtoMembers ==> AfterPut(m, key, value).keys == m.keys
    ensures key in m.keys ==> AfterPut(m, key, value).keys == m.keys
  {
  }

  /**
   * `put` of a non-null value keeps the map tidy when the key is not the name
   * of an inherited member; for such a name the value is stored but the key is
   * not listed.
   */
  lemma PutKeepsTidy<V>(m: MapState<V>, key: string, value: Slot<V>)
    requires Tidy(m) && value.Present?
    ensures key !in ProtoMembers ==> Tidy(AfterPut(m, key, value))
    ensures key in ProtoMembers && key != ProtoKey ==>
      AfterPut(m, key, value).keys == m.keys && Lookup(AfterPut(m, key, value), key) == value
  {
    var r := AfterPut(m, key, value);
    if key !in m.keys && key !in ProtoMembers {
      assert forall i :: 0 <= i < |m.keys| ==> r.keys[i] == m.keys[i];
      assert r.keys[|m.keys|] == key;
    }
  }

  /**
   * On an empty map, `put("constructor", v)` stores `v` for `get` but lists no
   * key: `size()` stays 0 and `entries()` stays empty.
   */
  lemma InheritedNameNotListed<V>(v: V)
    ensures var m := AfterPut(MapState([], map[]), "constructor", Present(v));
      && Lookup(m, "constructor") == Present(v)
      && m.keys == [] && EntriesOf(m) == []
  {
    assert "constructor" in ProtoMembers;
  }

  /** `get("toString")` on an empty map reads the inherited function, not `undefined`. */
  lemma InheritedNameReadsNonNull<V>()
    ensures var m: MapState<V> := MapState([], map[]);
      Lookup(m, "toString").Inherited?
  {
    assert "toString" in ProtoMembers;
  }

  /** `put("__proto__", v)` makes no own property: `get` does not return `v`. */
  lemma ProtoKeyNotStored<V>(v: V)
    ensures var m := AfterPut(MapState([], map[]), ProtoKey, Present(v));
      && m == MapState([], map[])
      && Lookup(m, ProtoKey) == Inherited
  {
  }

  /** `remove` deletes the key from both fields, and removing an absent key leaves `keys` alone. */
  lemma RemoveDeletes<V>(m: MapState<V>, key: string)
    requires Tidy(m)
    ensures key !in AfterRemove(m, key).keys && key !in AfterRemove(m, key).data
    ensures key !in m.keys ==> AfterRemove(m, key).keys == m.keys
    ensures Tidy(AfterRemove(m, key))
  {
    var i := FirstIndex(m.keys, key);
    if i > -1 {
      SpliceDistinct(m.keys, i);
    }
  }

  /** Splicing one element out of a list without repetitions removes exactly that element. */
  lemma SpliceDistinct(s: seq<string>, i: nat)
    requires Distinct(s) && i < |s|
    ensures var t := s[..i] + s[i + 1..];
      Distinct(t) && forall k :: k in t <==> k in s && k != s[i]
  {
    var t := s[..i] + s[i + 1..];
    assert forall j :: 0 <= j < |t| ==> t[j] == (if j < i then s[j] else s[j + 1]);
    forall k | k in s && k != s[i] ensures k in t {
      var j :| 0 <= j < |s| && s[j] == k;
      if j < i { assert t[j] == k; } else { assert t[j - 1] == k; }
    }
  }

  /** The keys of a list without repetitions, counted, are its length. */
  lemma {:induction false} DistinctCount(s: seq<string>)
    requires Distinct(s)
    ensures |set k | k in s| == |s|
  {
    if |s| != 0 {
      var tail := s[1..];
      DistinctCount(tail);
      assert (set k | k in s) == (set k | k in tail) + {s[0]};
      assert s[0] !in tail by {
        forall j | 0 <= j < |tail| ensures tail[j] != s[0] { assert tail[j] == s[j + 1]; }
      }
    }
  }

  /** In a tidy map `size()` is the number of keys the object holds. */
  lemma SizeCountsKeys<V>(m: MapState<V>)
    requires Tidy(m)
    ensures |m.keys| == |m.data|
  {
    DistinctCount(m.keys);
    assert (set k | k in m.keys) == m.data.Keys;
  }

  /** Re-putting a key whose value is `null` lists it twice: key uniqueness needs non-null values. */
  lemma NullValueDuplicatesKey()
    ensures var m := AfterPut(AfterPut(MapState([], map[]), "a", Nullish), "a", Present(1));
      m.keys == ["a", "a"] && !Distinct(m.keys)
  {
    var m := AfterPut(AfterPut(MapState([], map[]), "a", Nullish), "a", Present(1));
    assert m.keys[0] == m.keys[1];
  }

  /** The insertion-ordered map */
  class OrderedMap<V> {
    var keys: seq<string>
    var data: map<string, Slot<V>>

    function State(): MapState<V>
      reads this
    {
      MapState(keys, data)
    }

    constructor ()
      ensures State() == MapState([], map[]) && Tidy(State())
    {
      keys := [];
      data := map[];
    }

    method Put(key: string, value: Slot<V>)
      modifies this
      ensures State() == AfterPut(old(State()), key, value)
    {
      if Lookup(State(), key).Nullish? {
        keys := keys + [key];
      }
      if key != ProtoKey {
        data := data[key := value];
      }
    }

    function Get(key: string): (r: Slot<V>)
      reads this
      ensures key !in data && key !in ProtoMembers ==> r == Nullish
      ensures key !in data && key in ProtoMembers ==> r == Inherited
      ensures key in data ==> r == data[key]
    {
      Lookup(State(), key)
    }

    method Remove(key: string)
      modifies this
      ensures State() == AfterRemove(old(State()), key)
    {
      var index := FirstIndex(keys, key);
      if index > -1 {
        keys := keys[..index] + keys[index + 1..];
      }
      data := data - {key};
    }

    /**
     * `each(fn)`: the calls `fn(key, value, i)` made, in order; nothing is called
     * when `fn` is not a function.
     */
    method Each(isFunction: bool) returns (calls: seq<(string, Slot<V>, nat)>)
      ensures !isFunction ==> calls == []
      ensures isFunction ==> |calls| == |keys|
      ensures isFunction ==> forall i :: 0 <= i < |keys| ==> calls[i] == (keys[i], Get(keys[i]), i)
    {
      calls := [];
      if !isFunction {
        return;
      }
      var len := |keys|;
      for i := 0 to len
        invariant |calls| == i
        invariant forall j :: 0 <= j < i ==> calls[j] == (keys[j], Get(keys[j]), j)
      {
        var key := keys[i];
        calls := calls + [(key, Get(key), i)];
      }
    }

    /** `entries()`: exactly `size()` pairs in key insertion order */
    method Entries() returns (entries: seq<(string, Slot<V>)>)
      ensures entries == EntriesOf(State())
    {
      var len := |keys|;
      entries := [];
      for i := 0 to len
        invariant |entries| == i
        invariant forall j :: 0 <= j < i ==> entries[j] == (keys[j], Get(keys[j]))
      {
        var key := keys[i];
        entries := entries + [(key, Get(key))];
      }
    }

    function Size(): (r: nat)
      reads this
      ensures Tidy(State()) ==> r == |data|
    {
      assert Tidy(State()) ==> |keys| == |data| by {
        if Tidy(State()) { SizeCountsKeys(State()); }
      }
      |keys|
    }

    function IsEmpty(): (r: bool)
      reads this
      ensures r <==> Size() == 0
    {
      |keys| == 0
    }

    method Clear()
      modifies this
      ensures State() == MapState([], map[]) && Tidy(State())
    {
      keys := [];
      data := map[];
    }
  }

  // ---------------------------------------------------------------------------------------------
  // Start-up language and application space
  // ---------------------------------------------------------------------------------------------

  datatype Space = Space(id: string, name: string)

  /**
   * The language chosen by `initLanguage`: the stored one when it is truthy
   * (present and not empty) and `$.inArray` finds it at an index above 0,
   * otherwise the first site language (`undefined` when there is none).
   */
  function SelectLanguage(stored: Option<string>, siteLanguages: seq<string>): Option<string> {
    if stored.Some? && stored.value != "" && FirstIndex(siteLanguages, stored.value) > 0 then stored
    else if |siteLanguages| > 0 then Some(siteLanguages[0])
    else None
  }

  /** The `> 0` test is harmless: a stored site language is always kept, anything else falls back. */
  lemma LanguageChoice(stored: Option<string>, siteLanguages: seq<string>)
    requires |siteLanguages| > 0
    ensures SelectLanguage(stored, siteLanguages) ==
      if stored.Some? && stored.value != "" && stored.value in siteLanguages then stored else Some(siteLanguages[0])
  {
    if stored.Some? && stored.value in siteLanguages && FirstIndex(siteLanguages, stored.value) == 0 {
      assert siteLanguages[0] == stored.value;
    }
  }

  /** `$.grep(spaces, space.id == stored)` */
  function Matching(spaces: seq<Space>, stored: Option<string>): (r: seq<Space>)
    ensures |r| <= |spaces|
    ensures forall s :: s in r <==> s in spaces && stored == Some(s.id)
  {
    if |spaces| == 0 then []
    else (if stored == Some(spaces[0].id) then [spaces[0]] else []) + Matching(spaces[1..], stored)
  }

  /** The space chosen by `initAppSpace`: the single match, else the first space, else none. */
  function SelectSpace(spaces: seq<Space>, stored: Option<string>): Option<Space> {
    var matches := Matching(spaces, stored);
    if |matches| == 1 then Some(matches[0])
    else if |spaces| > 0 then Some(spaces[0])
    else None
  }

  predicate DistinctIds(spaces: seq<Space>) {
    forall i, j :: 0 <= i < j < |spaces| ==> spaces[i].id != spaces[j].id
  }

  lemma {:induction false} MatchingNone(spaces: seq<Space>, stored: Option<string>)
    requires forall j :: 0 <= j < |spaces| ==> stored != Some(spaces[j].id)
    ensures Matching(spaces, stored) == []
  {
    if |spaces| != 0 {
      assert forall j :: 0 <= j < |spaces| - 1 ==> spaces[1..][j] == spaces[j + 1];
      MatchingNone(spaces[1..], stored);
    }
  }

  lemma {:induction false} MatchingDistinct(spaces: seq<Space>, i: nat)
    requires DistinctIds(spaces) && i < |spaces|
    ensures Matching(spaces, Some(spaces[i].id)) == [spaces[i]]
  {
    var stored := Some(spaces[i].id);
    assert forall j :: 0 <= j < |spaces| - 1 ==> spaces[1..][j] == spaces[j + 1];
    if i == 0 {
      MatchingNone(spaces[1..], stored);
    } else {
      assert DistinctIds(spaces[1..]);
      MatchingDistinct(spaces[1..], i - 1);
    }
  }

  /** With distinct ids, the space whose id is stored is the one chosen. */
  lemma StoredSpaceChosen(spaces: seq<Space>, i: nat)
    requires DistinctIds(spaces) && i < |spaces|
    ensures SelectSpace(spaces, Some(spaces[i].id)) == Some(spaces[i])
  {
    MatchingDistinct(spaces, i);
  }

  /** With no stored match the first space is chosen. */
  lemma NoMatchFirstSpace(spaces: seq<Space>, stored: Option<string>)
    requires |spaces| > 0 && forall j :: 0 <= j < |spaces| ==> stored != Some(spaces[j].id)
    ensures SelectSpace(spaces, stored) == Some(spaces[0])
  {
    MatchingNone(spaces, stored);
  }

  /** `$rootScope` and `$window.localStorage` as far as language and space go */
  class Session {
    var language: Option<string>
    var storedLang: Option<string>
    var space: Option<Space>
    var storedSpace: Option<string>

    constructor (storedLang: Option<string>, storedSpace: Option<string>)
      ensures this.storedLang == storedLang && this.storedSpace == storedSpace
      ensures language == None && space == None
    {
      this.storedLang := storedLang;
      this.storedSpace := storedSpace;
      language := None;
      space := None;
    }

    /** `changeLanguage`: the current and the stored language become `lang`. */
    method ChangeLanguage(lang: Option<string>)
      modifies this
      ensures language == lang && storedLang == lang
      ensures space == old(space) && storedSpace == old(storedSpace)
    {
      language := lang;
      storedLang := lang;
    }

    method InitLanguage(siteLanguages: seq<string>)
      modifies this
      ensures language == SelectLanguage(old(storedLang), siteLanguages) && storedLang == language
      ensures space == old(space) && storedSpace == old(storedSpace)
    {
      var lang := SelectLanguage(storedLang, siteLanguages);
      ChangeLanguage(lang);
    }

    /**
     * `initAppSpace`; with no spaces at all `changeAppSpace(undefined)` sets the
     * space to `undefined` and then fails reading its id, reported as `failed`.
     */
    method InitAppSpace(spaces: seq<Space>) returns (failed: bool)
      modifies this
      ensures space == SelectSpace(spaces, old(storedSpace))
      ensures failed <==> |spaces| == 0
      ensures storedSpace == if failed then old(storedSpace) else Some(space.value.id)
      ensures language == old(language) && storedLang == old(storedLang)
    {
      var chosen := SelectSpace(spaces, storedSpace);
      space := chosen;
      if chosen.None? {
        return true;
      }
      storedSpace := Some(chosen.value.id);
      failed := false;
    }
  }
}
