/**
 * The dictionary service: named catalogues of translation entries, each entry
 * holding at most one value per language, with a name-keyed cache of
 * read-only snapshots that every successful mutation evicts, and the loading
 * of default resource bundles in "merge" or "override" mode.
 *
 * The persistent store is an in-memory map from dictionary name to
 * dictionary; one sequential caller is modelled.
 */
module Dictionaries {
  import opened Wrappers
  import opened Strings
  import opened Sorting

  type Lang = string

  /** The descriptions of one entry: language to value, so at most one per language. */
  type Descs = map<Lang, string>

  datatype Entry = Entry(key: string, descs: Descs)

  datatype Dictionary = Dictionary(name: string, entries: map<string, Entry>)

  /** The cached, read-only copy of a dictionary (a `DictionaryVo`). */
  datatype Snapshot = Snapshot(name: string, entries: map<string, Descs>)

  datatype Error =
    | NonExistingDictionary(name: string)
    | EntryAlreadyExists(key: string)
    | NoLocalizedValues(key: string)
    | NonExistingEntry(key: string)
    | NullDictionary(name: string)    // a NullPointerException on a missing dictionary

  /** The default resource bundles loaded at start-up */
  const DefaultBundles: seq<string> := ["web", "message", "pdf", "mail", "template"]

  /** A description is defined when its value is not blank. */
  predicate DescDefined(value: string) {
    !IsBlank(value)
  }

  /** Entry keys agree with their map keys, dictionary names with theirs. */
  ghost predicate WellFormed(store: map<string, Dictionary>) {
    forall n :: n in store ==>
      store[n].name == n && forall k :: k in store[n].entries ==> store[n].entries[k].key == k
  }

  /** The snapshot of a dictionary: every entry with all of its descriptions. */
  function ToVo(d: Dictionary): (s: Snapshot)
    ensures s.name == d.name && s.entries.Keys == d.entries.Keys
    ensures forall k :: k in d.entries ==> s.entries[k] == d.entries[k].descs
  {
    Snapshot(d.name, map k | k in d.entries :: d.entries[k].descs)
  }

  /** The descriptions whose value is not blank */
  function DropBlanks(descs: Descs): (r: Descs)
    ensures r.Keys <= descs.Keys
    ensures forall l :: l in r ==> r[l] == descs[l] && DescDefined(r[l])
    ensures forall l :: l in descs && DescDefined(descs[l]) ==> l in r
  {
    map l | l in descs && DescDefined(descs[l]) :: descs[l]
  }

  /**
   * `DictionaryEntry.copyDescsAndRemoveBlanks`: every defined description of
   * the update replaces the existing one for its language, and blank
   * descriptions are then dropped.
   */
  function CopyDescsAndRemoveBlanks(orig: Descs, update: Descs): (r: Descs)
    ensures forall l :: l in update && DescDefined(update[l]) ==> l in r && r[l] == update[l]
    ensures forall l :: (l in orig && (l !in update || !DescDefined(update[l])) && DescDefined(orig[l]))
                          ==> l in r && r[l] == orig[l]
    ensures forall l :: l in r ==> DescDefined(r[l]) && (l in orig || l in update)
  {
    DropBlanks(orig + DropBlanks(update))
  }

  /**
   * The private `updateEntry(dict, lang, key, value)`: creates the entry if it
   * is missing and sets its `lang` description to `value`.
   */
  function UpsertDesc(entries: map<string, Entry>, lang: Lang, key: string, value: string): (r: map<string, Entry>)
    ensures r.Keys == entries.Keys + {key}
    ensures r[key].descs.Keys == (if key in entries then entries[key].descs.Keys else {}) + {lang}
    ensures r[key].descs[lang] == value
    ensures forall l :: key in entries && l in entries[key].descs && l != lang ==>
                          r[key].descs[l] == entries[key].descs[l]
    ensures forall k :: k in entries && k != key ==> r[k] == entries[k]
  {
    var e := if key in entries then entries[key] else Entry(key, map[]);
    entries[key := e.(descs := e.descs[lang := value])]
  }

  /** The entries after setting, for every key of `kv`, its `lang` description to `kv[key]`. */
  function Overlay(entries: map<string, Entry>, lang: Lang, kv: map<string, string>): map<string, Entry>
  {
    map k | k in entries.Keys + kv.Keys ::
      if k in kv then
        var e := if k in entries then entries[k] else Entry(k, map[]);
        e.(descs := e.descs[lang := kv[k]])
      else entries[k]
  }

  /** One more key of the bundle applied is one more `UpsertDesc`. */
  lemma OverlayStep(entries: map<string, Entry>, lang: Lang, kv: map<string, string>, key: string, value: string)
    requires key !in kv
    ensures Overlay(entries, lang, kv[key := value]) == UpsertDesc(Overlay(entries, lang, kv), lang, key, value)
  {
    var a := Overlay(entries, lang, kv[key := value]);
    var b := UpsertDesc(Overlay(entries, lang, kv), lang, key, value);
    assert a.Keys == b.Keys;
    forall k | k in a ensures a[k] == b[k] {
      if k != key {
        assert a[k] == Overlay(entries, lang, kv)[k];
      }
    }
  }

  /** Entries whose keys agree with their map keys keep agreeing after an overlay. */
  lemma OverlayKeepsKeys(entries: map<string, Entry>, lang: Lang, kv: map<string, string>)
    requires forall k :: k in entries ==> entries[k].key == k
    ensures forall k :: k in Overlay(entries, lang, kv) ==> Overlay(entries, lang, kv)[k].key == k
  {
  }

  /** The loop over the bundle keys, calling the private `updateEntry` for each one */
  method ApplyBundle(start: map<string, Entry>, lang: Lang, kv: map<string, string>) returns (entries: map<string, Entry>)
    ensures entries == Overlay(start, lang, kv)
  {
    entries := start;
    var todo := kv.Keys;
    ghost var done: set<string> := {};
    OverlayEmpty(start, lang, kv);
    while todo != {}
      invariant todo <= kv.Keys && done == kv.Keys - todo
      invariant entries == Overlay(start, lang, Restrict(kv, done))
      decreases todo
    {
      var key :| key in todo;
      RestrictGrow(kv, done, key);
      OverlayStep(start, lang, Restrict(kv, done), key, kv[key]);
      entries := UpsertDesc(entries, lang, key, kv[key]);
      done := done + {key};
      todo := todo - {key};
    }
    assert Restrict(kv, done) == kv;
  }

  lemma OverlayEmpty(start: map<string, Entry>, lang: Lang, kv: map<string, string>)
    ensures Overlay(start, lang, Restrict(kv, {})) == start
  {
    assert Restrict(kv, {}) == map[];
  }

  lemma RestrictGrow(kv: map<string, string>, done: set<string>, key: string)
    requires key in kv && key !in done
    ensures key !in Restrict(kv, done)
    ensures Restrict(kv, done)[key := kv[key]] == Restrict(kv, done + {key})
  {
  }

  function Restrict(bundle: map<string, string>, keys: set<string>): (r: map<string, string>)
    ensures r.Keys == bundle.Keys * keys
    ensures forall k :: k in r ==> r[k] == bundle[k]
  {
    map k | k in bundle && k in keys :: bundle[k]
  }

  function EntriesOf(store: map<string, Dictionary>, name: string): map<string, Entry> {
    if name in store then store[name].entries else map[]
  }

  /**
   * The bundle keys the merge writes: those missing from the dictionary (or
   * the whole bundle when the dictionary does not exist) and those whose
   * entry has no `lang` description.
   */
  function MissingKeys(store: map<string, Dictionary>, name: string, lang: Lang, bundle: map<string, string>): (r: set<string>)
    ensures r <= bundle.Keys
    ensures forall k :: k in bundle ==>
      (k in r <==> (name !in store || k !in store[name].entries || lang !in store[name].entries[k].descs))
  {
    set k | k in bundle && (name !in store || k !in store[name].entries || lang !in store[name].entries[k].descs)
  }

  /** The store after merging a bundle into dictionary `name` */
  function MergedStore(store: map<string, Dictionary>, name: string, lang: Lang, bundle: map<string, string>): map<string, Dictionary>
  {
    var missing := MissingKeys(store, name, lang, bundle);
    if |bundle| == 0 || missing == {} then store
    else store[name := Dictionary(name, Overlay(EntriesOf(store, name), lang, Restrict(bundle, missing)))]
  }

  /** The store after overriding dictionary `name` with a bundle */
  function OverriddenStore(store: map<string, Dictionary>, name: string, lang: Lang, bundle: map<string, string>): map<string, Dictionary>
  {
    if |bundle| == 0 then store
    else store[name := Dictionary(name, Overlay(EntriesOf(store, name), lang, bundle))]
  }

  /** The cache after `getCachedDictionary(name)`: a miss on an existing dictionary caches its snapshot. */
  function CacheAfterLookup(store: map<string, Dictionary>, cache: map<string, Snapshot>, name: string): map<string, Snapshot>
  {
    if name !in cache && name in store then cache[name := ToVo(store[name])] else cache
  }

  /** The cache after a merge: looked up (if the bundle is not empty), then evicted if anything was written. */
  function MergedCache(store: map<string, Dictionary>, cache: map<string, Snapshot>, name: string, lang: Lang,
                       bundle: map<string, string>): map<string, Snapshot>
  {
    if |bundle| == 0 then cache
    else if MissingKeys(store, name, lang, bundle) == {} then CacheAfterLookup(store, cache, name)
    else CacheAfterLookup(store, cache, name) - {name}
  }

  function Reconcile(store: map<string, Dictionary>, name: string, lang: Lang, bundle: map<string, string>,
                     override: bool): map<string, Dictionary>
  {
    if override then OverriddenStore(store, name, lang, bundle) else MergedStore(store, name, lang, bundle)
  }

  /** The store after loading the bundles of one base name for `langs`, in order; missing bundles skipped. */
  function LoadBase(store: map<string, Dictionary>, base: string, langs: seq<Lang>,
                    bundles: map<(string, Lang), map<string, string>>, override: bool): map<string, Dictionary>
    decreases |langs|
  {
    if |langs| == 0 then store
    else
      var s := LoadBase(store, base, langs[..|langs| - 1], bundles, override);
      var lang := langs[|langs| - 1];
      if (base, lang) in bundles then Reconcile(s, base, lang, bundles[(base, lang)], override) else s
  }

  /** The store after loading every base name of `bases` in order */
  function LoadAll(store: map<string, Dictionary>, bases: seq<string>, langs: seq<Lang>,
                   bundles: map<(string, Lang), map<string, string>>, override: bool): map<string, Dictionary>
    decreases |bases|
  {
    if |bases| == 0 then store
    else LoadBase(LoadAll(store, bases[..|bases| - 1], langs, bundles, override), bases[|bases| - 1], langs, bundles, override)
  }

  /** `DictionaryVo.toProperties(lang)`: key to value for every entry with a `lang` description. */
  function ToProperties(s: Snapshot, lang: Lang): (r: map<string, string>)
    ensures forall k :: k in r <==> k in s.entries && lang in s.entries[k]
    ensures forall k :: k in r ==> r[k] == s.entries[k][lang]
  {
    map k | k in s.entries && lang in s.entries[k] :: s.entries[k][lang]
  }

  /** The properties of several dictionaries, later names overriding earlier ones on shared keys */
  function PropertiesOf(store: map<string, Dictionary>, names: seq<string>, lang: Lang): map<string, string>
    requires forall i :: 0 <= i < |names| ==> names[i] in store
  {
    if |names| == 0 then map[]
    else PropertiesOf(store, names[..|names| - 1], lang) + ToProperties(ToVo(store[names[|names| - 1]]), lang)
  }

  // ---------------------------------------------------------------------------------------------
  // Properties of the bundle reconciliation
  // ---------------------------------------------------------------------------------------------

  /** Merge never overwrites a value: every existing description of every dictionary survives. */
  lemma MergeNeverOverwrites(store: map<string, Dictionary>, name: string, lang: Lang, bundle: map<string, string>,
                             n: string, k: string, l: Lang)
    requires n in store && k in store[n].entries && l in store[n].entries[k].descs
    ensures var s := MergedStore(store, name, lang, bundle);
      n in s && k in s[n].entries && l in s[n].entries[k].descs
      && s[n].entries[k].descs[l] == store[n].entries[k].descs[l]
  {
    var missing := MissingKeys(store, name, lang, bundle);
    if |bundle| != 0 && missing != {} && n == name {
      var kv := Restrict(bundle, missing);
      var o := Overlay(EntriesOf(store, name), lang, kv);
      assert k in o;
      if k in kv {
        assert l != lang;
      }
    }
  }

  /** After a merge every bundle key has a `lang` value, and the value is the bundle's exactly where it was missing. */
  lemma MergeFillsMissing(store: map<string, Dictionary>, name: string, lang: Lang, bundle: map<string, string>, k: string)
    requires k in bundle
    ensures var s := MergedStore(store, name, lang, bundle);
      name in s && k in s[name].entries && lang in s[name].entries[k].descs
      && (k in MissingKeys(store, name, lang, bundle) ==> s[name].entries[k].descs[lang] == bundle[k])
  {
    var missing := MissingKeys(store, name, lang, bundle);
    if missing != {} {
      var o := Overlay(EntriesOf(store, name), lang, Restrict(bundle, missing));
      assert k in o;
    }
  }

  /** Merge touches only dictionary `name`, only bundle keys, and only the `lang` description. */
  lemma MergeIsLocal(store: map<string, Dictionary>, name: string, lang: Lang, bundle: map<string, string>)
    ensures var s := MergedStore(store, name, lang, bundle);
      && s.Keys <= store.Keys + {name}
      && (forall n :: n in store && n != name ==> s[n] == store[n])
      && (name in s ==> forall k :: k in s[name].entries && k !in bundle ==> k in EntriesOf(store, name) && s[name].entries[k] == store[name].entries[k])
      && (name in s ==> forall k, l :: k in s[name].entries && l in s[name].entries[k].descs && l != lang ==>
            k in EntriesOf(store, name) && l in store[name].entries[k].descs && s[name].entries[k].descs[l] == store[name].entries[k].descs[l])
  {
  }

  /** Merging the same bundle twice is the same as merging it once. */
  lemma MergeIdempotent(store: map<string, Dictionary>, name: string, lang: Lang, bundle: map<string, string>)
    ensures MergedStore(MergedStore(store, name, lang, bundle), name, lang, bundle) == MergedStore(store, name, lang, bundle)
  {
    var s := MergedStore(store, name, lang, bundle);
    if |bundle| != 0 {
      forall k | k in bundle ensures k !in MissingKeys(s, name, lang, bundle) {
        MergeFillsMissing(store, name, lang, bundle, k);
      }
      assert MissingKeys(s, name, lang, bundle) == {};
    }
  }

  /** Override sets the `lang` value of every bundle key, and keeps every other language and key. */
  lemma OverrideSetsAll(store: map<string, Dictionary>, name: string, lang: Lang, bundle: map<string, string>)
    requires |bundle| != 0
    ensures var s := OverriddenStore(store, name, lang, bundle);
      && name in s
      && (forall k :: k in bundle ==> k in s[name].entries && lang in s[name].entries[k].descs
                                      && s[name].entries[k].descs[lang] == bundle[k])
      && (forall k, l :: k in EntriesOf(store, name) && l in store[name].entries[k].descs && l != lang ==>
            k in s[name].entries && l in s[name].entries[k].descs && s[name].entries[k].descs[l] == store[name].entries[k].descs[l])
      && (forall k :: k in EntriesOf(store, name) && k !in bundle ==> k in s[name].entries && s[name].entries[k] == store[name].entries[k])
      && (forall n :: n in store && n != name ==> n in s && s[n] == store[n])
  {
  }

  /** Once a bundle has overridden a dictionary, merging it again changes nothing. */
  lemma MergeAfterOverride(store: map<string, Dictionary>, name: string, lang: Lang, bundle: map<string, string>)
    ensures var s := OverriddenStore(store, name, lang, bundle);
      MergedStore(s, name, lang, bundle) == s
  {
    var s := OverriddenStore(store, name, lang, bundle);
    if |bundle| != 0 {
      OverrideSetsAll(store, name, lang, bundle);
      assert MissingKeys(s, name, lang, bundle) == {};
    }
  }

  /** Both reconciliations keep the store well formed. */
  lemma ReconcileWellFormed(store: map<string, Dictionary>, name: string, lang: Lang, bundle: map<string, string>, override: bool)
    requires WellFormed(store)
    ensures WellFormed(Reconcile(store, name, lang, bundle, override))
  {
  }

  /** Merge-mode loading of any number of bundles never overwrites an existing value. */
  lemma {:induction false} LoadBaseMergeKeeps(store: map<string, Dictionary>, base: string, langs: seq<Lang>,
                                             bundles: map<(string, Lang), map<string, string>>,
                                             n: string, k: string, l: Lang)
    requires n in store && k in store[n].entries && l in store[n].entries[k].descs
    ensures var s := LoadBase(store, base, langs, bundles, false);
      n in s && k in s[n].entries && l in s[n].entries[k].descs
      && s[n].entries[k].descs[l] == store[n].entries[k].descs[l]
    decreases |langs|
  {
    if |langs| != 0 {
      var prefix := langs[..|langs| - 1];
      LoadBaseMergeKeeps(store, base, prefix, bundles, n, k, l);
      var s := LoadBase(store, base, prefix, bundles, false);
      var lang := langs[|langs| - 1];
      if (base, lang) in bundles {
        MergeNeverOverwrites(s, base, lang, bundles[(base, lang)], n, k, l);
      }
    }
  }

  /** Merge-mode loading of all default bundles never overwrites an existing value. */
  lemma {:induction false} LoadAllMergeKeeps(store: map<string, Dictionary>, bases: seq<string>, langs: seq<Lang>,
                                            bundles: map<(string, Lang), map<string, string>>,
                                            n: string, k: string, l: Lang)
    requires n in store && k in store[n].entries && l in store[n].entries[k].descs
    ensures var s := LoadAll(store, bases, langs, bundles, false);
      n in s && k in s[n].entries && l in s[n].entries[k].descs
      && s[n].entries[k].descs[l] == store[n].entries[k].descs[l]
    decreases |bases|
  {
    if |bases| != 0 {
      var prefix := bases[..|bases| - 1];
      LoadAllMergeKeeps(store, prefix, langs, bundles, n, k, l);
      LoadBaseMergeKeeps(LoadAll(store, prefix, langs, bundles, false), bases[|bases| - 1], langs, bundles, n, k, l);
    }
  }

  lemma {:induction false} LoadBaseWellFormed(store: map<string, Dictionary>, base: string, langs: seq<Lang>,
                                             bundles: map<(string, Lang), map<string, string>>, override: bool)
    requires WellFormed(store)
    ensures WellFormed(LoadBase(store, base, langs, bundles, override))
    decreases |langs|
  {
    if |langs| != 0 {
      var prefix := langs[..|langs| - 1];
      LoadBaseWellFormed(store, base, prefix, bundles, override);
      var lang := langs[|langs| - 1];
      if (base, lang) in bundles {
        ReconcileWellFormed(LoadBase(store, base, prefix, bundles, override), base, lang, bundles[(base, lang)], override);
      }
    }
  }

  /** Loading one base name changes no other dictionary. */
  lemma {:induction false} LoadBaseOnlyTouchesBase(store: map<string, Dictionary>, base: string, langs: seq<Lang>,
                                                  bundles: map<(string, Lang), map<string, string>>, override: bool)
    ensures var s := LoadBase(store, base, langs, bundles, override);
      s.Keys <= store.Keys + {base} && forall n :: n in store && n != base ==> n in s && s[n] == store[n]
    decreases |langs|
  {
    if |langs| != 0 {
      LoadBaseOnlyTouchesBase(store, base, langs[..|langs| - 1], bundles, override);
      var s := LoadBase(store, base, langs[..|langs| - 1], bundles, override);
      var lang := langs[|langs| - 1];
      if (base, lang) in bundles {
        MergeIsLocal(s, base, lang, bundles[(base, lang)]);
      }
    }
  }

  /**
   * The end-to-end scenario: starting without a "web" dictionary, merging
   * `{greeting: "Hello"}` for "en" and `{greeting: "Hej"}` for "da" yields an
   * entry `greeting` holding both values.
   */
  lemma MergeScenario()
    ensures var bundles := map[("web", "en") := map["greeting" := "Hello"], ("web", "da") := map["greeting" := "Hej"]];
      var s := LoadBase(map[], "web", ["en", "da"], bundles, false);
      "web" in s && "greeting" in s["web"].entries
      && s["web"].entries["greeting"].descs == map["en" := "Hello", "da" := "Hej"]
  {
    var b1 := map["greeting" := "Hello"];
    var b2 := map["greeting" := "Hej"];
    var bundles := map[("web", "en") := b1, ("web", "da") := b2];
    var empty: map<string, Dictionary> := map[];
    var langs: seq<Lang> := ["en", "da"];
    assert langs[..1] == ["en"] && langs[..1][..0] == [];
    var s1 := LoadBase(empty, "web", ["en"], bundles, false);
    assert s1 == MergedStore(empty, "web", "en", b1);
    FirstBundleMerged();
    assert LoadBase(empty, "web", langs, bundles, false) == MergedStore(s1, "web", "da", b2);
    SecondBundleMerged();
  }

  lemma FirstBundleMerged()
    ensures var s1 := MergedStore(map[], "web", "en", map["greeting" := "Hello"]);
      s1 == map["web" := Dictionary("web", map["greeting" := Entry("greeting", map["en" := "Hello"])])]
  {
    var b1 := map["greeting" := "Hello"];
    assert MissingKeys(map[], "web", "en", b1) == {"greeting"};
    assert Restrict(b1, {"greeting"}) == b1;
    assert Overlay(map[], "en", b1) == map["greeting" := Entry("greeting", map["en" := "Hello"])];
  }

  lemma SecondBundleMerged()
    ensures var s1 := map["web" := Dictionary("web", map["greeting" := Entry("greeting", map["en" := "Hello"])])];
      var s2 := MergedStore(s1, "web", "da", map["greeting" := "Hej"]);
      "web" in s2 && "greeting" in s2["web"].entries
      && s2["web"].entries["greeting"].descs == map["en" := "Hello", "da" := "Hej"]
  {
    var s1 := map["web" := Dictionary("web", map["greeting" := Entry("greeting", map["en" := "Hello"])])];
    var b2 := map["greeting" := "Hej"];
    assert "da" != "en";
    assert MissingKeys(s1, "web", "da", b2) == {"greeting"};
    assert Restrict(b2, {"greeting"}) == b2;
    assert "greeting" in Overlay(s1["web"].entries, "da", b2);
  }

  /** Merge keeps a manual edit that override replaces. */
  lemma MergeVersusOverride()
    ensures var store := map["web" := Dictionary("web", map["x" := Entry("x", map["en" := "hello"])])];
      && MergedStore(store, "web", "en", map["x" := "hi"]) == store
      && OverriddenStore(store, "web", "en", map["x" := "hi"])["web"].entries["x"].descs["en"] == "hi"
  {
    var store := map["web" := Dictionary("web", map["x" := Entry("x", map["en" := "hello"])])];
    assert MissingKeys(store, "web", "en", map["x" := "hi"]) == {};
    OverrideSetsAll(store, "web", "en", map["x" := "hi"]);
  }

  // ---------------------------------------------------------------------------------------------
  // Loading of the default bundles, as written and as intended
  // ---------------------------------------------------------------------------------------------

  /** The units of one base name, one per language */
  function Row(base: string, langs: seq<Lang>): (r: seq<(string, Lang)>)
    ensures |r| == |langs| && forall i :: 0 <= i < |langs| ==> r[i] == (base, langs[i])
  {
    seq(|langs|, i requires 0 <= i < |langs| => (base, langs[i]))
  }

  /** The (base name, language) units in loading order */
  function Units(bases: seq<string>, langs: seq<Lang>): (r: seq<(string, Lang)>)
    ensures forall u :: u in r <==> u.0 in bases && u.1 in langs
  {
    if |bases| == 0 then []
    else
      var row := Row(bases[0], langs);
      var rest := Units(bases[1..], langs);
      assert forall u: (string, Lang) :: u.0 == bases[0] && u.1 in langs ==> u in row by {
        forall u: (string, Lang) | u.0 == bases[0] && u.1 in langs ensures u in row {
          var i :| 0 <= i < |langs| && langs[i] == u.1;
          assert row[i] == u;
        }
      }
      assert forall b :: b in bases <==> b == bases[0] || b in bases[1..];
      row + rest
  }

  /**
   * The units reconciled by the code as written: a missing resource makes
   * `new InputStreamReader(null, ...)` throw a NullPointerException, which the
   * `catch (IOException)` does not catch, so loading stops at the first
   * missing unit.
   */
  function LoadedAsWritten(units: seq<(string, Lang)>, available: set<(string, Lang)>): (r: seq<(string, Lang)>)
    ensures |r| <= |units| && r == units[..|r|]
    ensures forall i :: 0 <= i < |r| ==> r[i] in available
    ensures |r| < |units| ==> units[|r|] !in available
  {
    if |units| == 0 || units[0] !in available then []
    else [units[0]] + LoadedAsWritten(units[1..], available)
  }

  /** The units reconciled when a missing resource is skipped */
  function LoadedSkipping(units: seq<(string, Lang)>, available: set<(string, Lang)>): (r: seq<(string, Lang)>)
    ensures forall u :: u in r <==> u in units && u in available
  {
    if |units| == 0 then []
    else (if units[0] in available then [units[0]] else []) + LoadedSkipping(units[1..], available)
  }

  /** As written, one missing Danish "web" bundle stops every later bundle from loading. */
  lemma MissingBundleAbortsLoading()
    ensures var units := Units(["web", "message"], ["en", "da"]);
      var available := {("web", "en"), ("message", "en"), ("message", "da")};
      && LoadedAsWritten(units, available) == [("web", "en")]
      && ("message", "en") in LoadedSkipping(units, available)
      && ("message", "en") !in LoadedAsWritten(units, available)
  {
    var units := Units(["web", "message"], ["en", "da"]);
    var available := {("web", "en"), ("message", "en"), ("message", "da")};
    assert ["web", "message"][1..] == ["message"];
    assert units == [("web", "en"), ("web", "da"), ("message", "en"), ("message", "da")];
    assert units[1..][0] == ("web", "da");
  }

  /** When loading skips missing resources, every available unit is loaded, whatever else is missing. */
  lemma SkippingLoadsEveryAvailable(bases: seq<string>, langs: seq<Lang>, available: set<(string, Lang)>, b: string, l: Lang)
    requires b in bases && l in langs && (b, l) in available
    ensures (b, l) in LoadedSkipping(Units(bases, langs), available)
  {
  }

  /** Reconciling one unit: its bundle when the resource exists, nothing otherwise */
  function ReconcileUnit(store: map<string, Dictionary>, u: (string, Lang),
                         bundles: map<(string, Lang), map<string, string>>, override: bool): map<string, Dictionary>
  {
    if u in bundles then Reconcile(store, u.0, u.1, bundles[u], override) else store
  }

  /** The store after reconciling `units` one after the other */
  function ReconcileUnits(store: map<string, Dictionary>, units: seq<(string, Lang)>,
                          bundles: map<(string, Lang), map<string, string>>, override: bool): map<string, Dictionary>
    decreases |units|
  {
    if |units| == 0 then store
    else ReconcileUnits(ReconcileUnit(store, units[0], bundles, override), units[1..], bundles, override)
  }

  /** The store the code as written leaves: the units up to the first missing resource are reconciled. */
  function AsWrittenStore(store: map<string, Dictionary>, bases: seq<string>, langs: seq<Lang>,
                          bundles: map<(string, Lang), map<string, string>>, override: bool): map<string, Dictionary>
  {
    ReconcileUnits(store, LoadedAsWritten(Units(bases, langs), bundles.Keys), bundles, override)
  }

  lemma {:induction false} ReconcileUnitsAppend(store: map<string, Dictionary>, u: seq<(string, Lang)>, v: seq<(string, Lang)>,
                                                bundles: map<(string, Lang), map<string, string>>, override: bool)
    ensures ReconcileUnits(store, u + v, bundles, override)
            == ReconcileUnits(ReconcileUnits(store, u, bundles, override), v, bundles, override)
    decreases |u|
  {
    if |u| > 0 {
      assert (u + v)[0] == u[0] && (u + v)[1..] == u[1..] + v;
      ReconcileUnitsAppend(ReconcileUnit(store, u[0], bundles, override), u[1..], v, bundles, override);
    } else {
      assert u + v == v;
    }
  }

  /** Leaving out the missing units beforehand changes nothing: the fold skips them anyway. */
  lemma {:induction false} ReconcileUnitsSkipping(store: map<string, Dictionary>, units: seq<(string, Lang)>,
                                                  bundles: map<(string, Lang), map<string, string>>, override: bool)
    ensures ReconcileUnits(store, LoadedSkipping(units, bundles.Keys), bundles, override)
            == ReconcileUnits(store, units, bundles, override)
    decreases |units|
  {
    if |units| > 0 {
      var head := if units[0] in bundles.Keys then [units[0]] else [];
      assert LoadedSkipping(units, bundles.Keys) == head + LoadedSkipping(units[1..], bundles.Keys);
      ReconcileUnitsAppend(store, head, LoadedSkipping(units[1..], bundles.Keys), bundles, override);
      var next := ReconcileUnit(store, units[0], bundles, override);
      if head == [] {
        assert ReconcileUnits(store, head, bundles, override) == next;
      } else {
        assert ReconcileUnits(store, head, bundles, override) == ReconcileUnits(next, [], bundles, override);
      }
      ReconcileUnitsSkipping(next, units[1..], bundles, override);
    }
  }

  /** Loading one base name is reconciling its row of units. */
  lemma {:induction false} LoadBaseIsRow(store: map<string, Dictionary>, base: string, langs: seq<Lang>,
                                         bundles: map<(string, Lang), map<string, string>>, override: bool)
    ensures LoadBase(store, base, langs, bundles, override) == ReconcileUnits(store, Row(base, langs), bundles, override)
    decreases |langs|
  {
    if |langs| > 0 {
      var init := langs[..|langs| - 1];
      var last := (base, langs[|langs| - 1]);
      LoadBaseIsRow(store, base, init, bundles, override);
      assert Row(base, langs) == Row(base, init) + [last];
      ReconcileUnitsAppend(store, Row(base, init), [last], bundles, override);
      var mid := ReconcileUnits(store, Row(base, init), bundles, override);
      assert ReconcileUnits(mid, [last], bundles, override) == ReconcileUnits(ReconcileUnit(mid, last, bundles, override), [], bundles, override);
    }
  }

  /** The units of all but the last base name, then the row of the last one */
  lemma {:induction false} UnitsSnoc(bases: seq<string>, langs: seq<Lang>)
    requires |bases| > 0
    ensures Units(bases, langs) == Units(bases[..|bases| - 1], langs) + Row(bases[|bases| - 1], langs)
    decreases |bases|
  {
    if |bases| == 1 {
      assert bases[..0] == [];
      assert Units(bases[1..], langs) == [];
    } else {
      UnitsSnoc(bases[1..], langs);
      assert bases[..|bases| - 1][1..] == bases[1..][..|bases[1..]| - 1];
      assert bases[..|bases| - 1][0] == bases[0];
      assert bases[1..][|bases[1..]| - 1] == bases[|bases| - 1];
    }
  }

  /**
   * Loading every base name is the fold of `Reconcile` over the available
   * units, in loading order: the skipping behaviour, spelled out on the store.
   */
  lemma {:induction false} LoadAllIsFold(store: map<string, Dictionary>, bases: seq<string>, langs: seq<Lang>,
                                         bundles: map<(string, Lang), map<string, string>>, override: bool)
    ensures LoadAll(store, bases, langs, bundles, override)
            == ReconcileUnits(store, LoadedSkipping(Units(bases, langs), bundles.Keys), bundles, override)
    decreases |bases|
  {
    ReconcileUnitsSkipping(store, Units(bases, langs), bundles, override);
    if |bases| > 0 {
      var init := bases[..|bases| - 1];
      var last := bases[|bases| - 1];
      LoadAllIsFold(store, init, langs, bundles, override);
      ReconcileUnitsSkipping(store, Units(init, langs), bundles, override);
      var mid := LoadAll(store, init, langs, bundles, override);
      LoadBaseIsRow(mid, last, langs, bundles, override);
      UnitsSnoc(bases, langs);
      ReconcileUnitsAppend(store, Units(init, langs), Row(last, langs), bundles, override);
    }
  }

  /** Reconciling never removes a dictionary. */
  lemma {:induction false} ReconcileUnitsKeepsNames(store: map<string, Dictionary>, units: seq<(string, Lang)>,
                                                    bundles: map<(string, Lang), map<string, string>>, override: bool)
    ensures store.Keys <= ReconcileUnits(store, units, bundles, override).Keys
    decreases |units|
  {
    if |units| > 0 {
      ReconcileUnitsKeepsNames(ReconcileUnit(store, units[0], bundles, override), units[1..], bundles, override);
    }
  }

  /** Once a unit with a non-empty bundle is reconciled, its dictionary exists. */
  lemma {:induction false} ReconcileUnitsCreates(store: map<string, Dictionary>, units: seq<(string, Lang)>,
                                                 bundles: map<(string, Lang), map<string, string>>, override: bool, i: nat)
    requires i < |units| && units[i] in bundles && bundles[units[i]] != map[]
    ensures units[i].0 in ReconcileUnits(store, units, bundles, override)
    decreases |units|
  {
    var next := ReconcileUnit(store, units[0], bundles, override);
    if i == 0 {
      var b := bundles[units[0]];
      assert |b| > 0 by { var k :| k in b; }
      assert units[0].0 in next by {
        if !override && MissingKeys(store, units[0].0, units[0].1, b) == {} {
          var k :| k in b;
        }
      }
      ReconcileUnitsKeepsNames(next, units[1..], bundles, override);
    } else {
      ReconcileUnitsCreates(next, units[1..], bundles, override, i - 1);
    }
  }

  /**
   * Skipping missing resources, every base name with a non-empty bundle for
   * one of the languages ends up as a dictionary, whatever else is missing.
   */
  lemma LoadAllLoadsEveryAvailable(store: map<string, Dictionary>, bases: seq<string>, langs: seq<Lang>,
                                   bundles: map<(string, Lang), map<string, string>>, override: bool, b: string, l: Lang)
    requires b in bases && l in langs && (b, l) in bundles && bundles[(b, l)] != map[]
    ensures b in LoadAll(store, bases, langs, bundles, override)
  {
    LoadAllIsFold(store, bases, langs, bundles, override);
    ReconcileUnitsSkipping(store, Units(bases, langs), bundles, override);
    var units := Units(bases, langs);
    var i :| 0 <= i < |units| && units[i] == (b, l);
    ReconcileUnitsCreates(store, units, bundles, override, i);
  }

  /**
   * As written, a missing Danish "web" bundle leaves the "message" dictionary
   * out of the store, although its English bundle exists.
   */
  lemma MissingBundleLosesDictionary()
    ensures var bundles := map[("web", "en") := map["a" := "A"], ("message", "en") := map["m" := "M"]];
      && "message" !in AsWrittenStore(map[], ["web", "message"], ["en", "da"], bundles, false)
      && "message" in LoadAll(map[], ["web", "message"], ["en", "da"], bundles, false)
  {
    var bundles := map[("web", "en") := map["a" := "A"], ("message", "en") := map["m" := "M"]];
    var units := Units(["web", "message"], ["en", "da"]);
    assert ["web", "message"][1..] == ["message"];
    assert units == [("web", "en"), ("web", "da"), ("message", "en"), ("message", "da")];
    assert ("web", "da") !in bundles.Keys;
    assert LoadedAsWritten(units, bundles.Keys) == [("web", "en")];
    var s := ReconcileUnit(map[], ("web", "en"), bundles, false);
    assert s.Keys <= {"web"};
    assert AsWrittenStore(map[], ["web", "message"], ["en", "da"], bundles, false) == ReconcileUnits(s, [], bundles, false);
    LoadAllLoadsEveryAvailable(map[], ["web", "message"], ["en", "da"], bundles, false, "message", "en");
  }

  // ---------------------------------------------------------------------------------------------
  // The service
  // ---------------------------------------------------------------------------------------------

  class DictionaryService {
    /** The persistent dictionaries, by name */
    var store: map<string, Dictionary>
    /** The cached snapshots, by dictionary name */
    var cache: map<string, Snapshot>

    /** The store is well formed and every cached snapshot is the snapshot of the stored dictionary. */
    ghost predicate Valid()
      reads this
    {
      WellFormed(store) && forall n :: n in cache ==> n in store && cache[n] == ToVo(store[n])
    }

    constructor (initial: map<string, Dictionary>)
      requires WellFormed(initial)
      ensures Valid() && store == initial && cache == map[]
    {
      store := initial;
      cache := map[];
    }

    /** `findByName` */
    function FindByName(name: string): (r: Option<Dictionary>)
      reads this
      ensures r.Some? <==> name in store
      ensures r.Some? ==> r.value == store[name]
    {
      if name in store then Some(store[name]) else None
    }

    /** Adds a new entry to an existing dictionary. */
    method CreateEntry(name: string, entry: Entry) returns (r: Result<Entry, Error>)
      requires Valid()
      modifies this
      ensures Valid()
      ensures name !in old(store) ==> r == Err(NonExistingDictionary(name))
      ensures name in old(store) && entry.key in old(store)[name].entries ==> r == Err(EntryAlreadyExists(entry.key))
      ensures (name in old(store) && entry.key !in old(store)[name].entries && DropBlanks(entry.descs) == map[])
                ==> r == Err(NoLocalizedValues(entry.key))
      ensures r.Err? ==> store == old(store) && cache == old(cache)
      ensures r.Ok? ==>
        && name in old(store) && entry.key !in old(store)[name].entries
        && r.value == Entry(entry.key, DropBlanks(entry.descs)) && r.value.descs != map[]
        && store == old(store)[name := old(store)[name].(entries := old(store)[name].entries[entry.key := r.value])]
        && cache == old(cache) - {name}
    {
      var dict := FindByName(name);
      if dict.None? {
        return Err(NonExistingDictionary(name));
      }
      if entry.key in dict.value.entries {
        return Err(EntryAlreadyExists(entry.key));
      }
      var descs := DropBlanks(entry.descs);
      if descs == map[] {
        return Err(NoLocalizedValues(entry.key));
      }
      var created := Entry(entry.key, descs);
      store := store[name := dict.value.(entries := dict.value.entries[entry.key := created])];
      cache := cache - {name};
      r := Ok(created);
    }

    /** Copies the defined descriptions of `entry` onto the existing entry with the same key. */
    method UpdateEntry(name: string, entry: Entry) returns (r: Result<Entry, Error>)
      requires Valid()
      modifies this
      ensures Valid()
      ensures name !in old(store) ==> r == Err(NonExistingDictionary(name))
      ensures name in old(store) && entry.key !in old(store)[name].entries ==> r == Err(NonExistingEntry(entry.key))
      ensures r.Err? ==> store == old(store) && cache == old(cache)
      ensures r.Ok? ==>
        var orig := old(store)[name].entries[entry.key];
        && name in old(store) && entry.key in old(store)[name].entries
        && r.value == orig.(descs := CopyDescsAndRemoveBlanks(orig.descs, entry.descs))
        && store == old(store)[name := old(store)[name].(entries := old(store)[name].entries[entry.key := r.value])]
        && cache == old(cache) - {name}
    {
      var dict := FindByName(name);
      if dict.None? {
        return Err(NonExistingDictionary(name));
      }
      if entry.key !in dict.value.entries {
        return Err(NonExistingEntry(entry.key));
      }
      var original := dict.value.entries[entry.key];
      var updated := original.(descs := CopyDescsAndRemoveBlanks(original.descs, entry.descs));
      store := store[name := dict.value.(entries := dict.value.entries[entry.key := updated])];
      cache := cache - {name};
      r := Ok(updated);
    }

    /** Deletes the entry with the given key; reports whether there was one. */
    method DeleteEntry(name: string, key: string) returns (r: Result<bool, Error>)
      requires Valid()
      modifies this
      ensures Valid()
      ensures name !in old(store) ==> r == Err(NonExistingDictionary(name))
      ensures name in old(store) ==> r == Ok(key in old(store)[name].entries)
      ensures r != Ok(true) ==> store == old(store) && cache == old(cache)
      ensures r == Ok(true) ==>
        && store == old(store)[name := old(store)[name].(entries := old(store)[name].entries - {key})]
        && cache == old(cache) - {name}
    {
      var dict := FindByName(name);
      if dict.None? {
        return Err(NonExistingDictionary(name));
      }
      if key !in dict.value.entries {
        return Ok(false);
      }
      store := store[name := dict.value.(entries := dict.value.entries - {key})];
      cache := cache - {name};
      r := Ok(true);
    }

    /** The cached snapshot; on a miss the snapshot of an existing dictionary is built and cached. */
    method GetCachedDictionary(name: string) returns (r: Option<Snapshot>)
      requires Valid()
      modifies this
      ensures Valid() && store == old(store)
      ensures cache == CacheAfterLookup(old(store), old(cache), name)
      ensures name in old(cache) ==> r == Some(old(cache)[name])
      ensures r.Some? <==> name in store
      ensures r.Some? ==> r.value == ToVo(store[name])
    {
      if name in cache {
        return Some(cache[name]);
      }
      var dict := FindByName(name);
      if dict.Some? {
        var vo := ToVo(dict.value);
        cache := cache[vo.name := vo];
        r := Some(vo);
      } else {
        r := None;
      }
    }

    /** The `lang` value of `key` in dictionary `name`, read through the cache */
    method Value(name: string, lang: Lang, key: string) returns (r: Option<string>)
      requires Valid()
      modifies this
      ensures Valid() && store == old(store)
      ensures cache == CacheAfterLookup(old(store), old(cache), name)
      ensures r.Some? <==> name in store && key in store[name].entries && lang in store[name].entries[key].descs
      ensures r.Some? ==> r.value == store[name].entries[key].descs[lang]
    {
      var dict := GetCachedDictionary(name);
      if dict.Some? && key in dict.value.entries && lang in dict.value.entries[key] {
        r := Some(dict.value.entries[key][lang]);
      } else {
        r := None;
      }
    }

    /** The dictionary names in sorted order */
    method GetDictionaryNames() returns (names: seq<string>)
      ensures SortedBy(names, LexLeq)
      ensures multiset(names) == multiset(store.Keys)
    {
      LexIsTotalPreorder();
      names := [];
      var todo := store.Keys;
      while todo != {}
        invariant todo <= store.Keys
        invariant SortedBy(names, LexLeq)
        invariant multiset(names) == multiset(store.Keys - todo)
        decreases todo
      {
        var n :| n in todo;
        names := Insert(n, names, LexLeq);
        assert store.Keys - (todo - {n}) == (store.Keys - todo) + {n};
        todo := todo - {n};
      }
    }

    /** The `language` values of several dictionaries as one property map */
    method GetDictionariesAsProperties(names: seq<string>, language: Lang) returns (r: Result<map<string, string>, Error>)
      requires Valid()
      modifies this
      ensures Valid() && store == old(store)
      ensures old(cache).Keys <= cache.Keys <= old(cache).Keys + set i | 0 <= i < |names| :: names[i]
      ensures r.Err? <==> exists i :: 0 <= i < |names| && names[i] !in store
      ensures r.Ok? ==> r.value == PropertiesOf(store, names, language)
    {
      var props: map<string, string> := map[];
      var i := 0;
      while i < |names|
        invariant 0 <= i <= |names|
        invariant Valid() && store == old(store)
        invariant old(cache).Keys <= cache.Keys <= old(cache).Keys + set j | 0 <= j < |names| :: names[j]
        invariant forall j :: 0 <= j < i ==> names[j] in store
        invariant props == PropertiesOf(store, names[..i], language)
      {
        var dict := GetCachedDictionary(names[i]);
        if dict.None? {
          return Err(NullDictionary(names[i]));
        }
        assert names[..i + 1][..i] == names[..i];
        props := props + ToProperties(dict.value, language);
        i := i + 1;
      }
      assert names[..i] == names;
      r := Ok(props);
    }

    /** Merges a bundle into dictionary `name`: only keys missing a `lang` value are written. */
    method MergeDictWithResourceBundle(name: string, lang: Lang, bundle: map<string, string>)
      requires Valid()
      modifies this
      ensures Valid()
      ensures store == MergedStore(old(store), name, lang, bundle)
      ensures cache == MergedCache(old(store), old(cache), name, lang, bundle)
    {
      if |bundle| == 0 {
        return;
      }
      var dict := GetCachedDictionary(name);
      var undefKeys := set k | k in bundle && (dict.None? || k !in dict.value.entries || lang !in dict.value.entries[k]);
      assert undefKeys == MissingKeys(store, name, lang, bundle);
      if undefKeys != {} {
        var dictionary := FindByName(name);
        var start := if dictionary.Some? then dictionary.value.entries else map[];
        var entries := ApplyBundle(start, lang, Restrict(bundle, undefKeys));
        OverlayKeepsKeys(start, lang, Restrict(bundle, undefKeys));
        store := store[name := Dictionary(name, entries)];
        cache := cache - {name};
      }
    }

    /** Overrides dictionary `name` with a bundle: every bundle key gets its `lang` value. */
    method UpdateDictFromResourceBundle(name: string, lang: Lang, bundle: map<string, string>)
      requires Valid()
      modifies this
      ensures Valid()
      ensures store == OverriddenStore(old(store), name, lang, bundle)
      ensures cache == if |bundle| == 0 then old(cache) else old(cache) - {name}
    {
      if |bundle| == 0 {
        return;
      }
      var dictionary := FindByName(name);
      var start := if dictionary.Some? then dictionary.value.entries else map[];
      var entries := ApplyBundle(start, lang, bundle);
      OverlayKeepsKeys(start, lang, bundle);
      store := store[name := Dictionary(name, entries)];
      cache := cache - {name};
    }

    /** Loads the bundles of one base name for every language, skipping missing resources. */
    method LoadResourceBundle(baseName: string, override: bool, langs: seq<Lang>,
                              bundles: map<(string, Lang), map<string, string>>)
      requires Valid()
      modifies this
      ensures Valid()
      ensures store == LoadBase(old(store), baseName, langs, bundles, override)
      ensures forall n :: n in old(cache) && n != baseName ==> n in cache
      ensures cache.Keys <= old(cache).Keys + {baseName}
    {
      var j := 0;
      while j < |langs|
        invariant 0 <= j <= |langs|
        invariant Valid()
        invariant store == LoadBase(old(store), baseName, langs[..j], bundles, override)
        invariant forall n :: n in old(cache) && n != baseName ==> n in cache
        invariant cache.Keys <= old(cache).Keys + {baseName}
      {
        var lang := langs[j];
        assert langs[..j + 1][..j] == langs[..j];
        if (baseName, lang) in bundles {
          if override {
            UpdateDictFromResourceBundle(baseName, lang, bundles[(baseName, lang)]);
          } else {
            MergeDictWithResourceBundle(baseName, lang, bundles[(baseName, lang)]);
          }
        }
        j := j + 1;
      }
      assert langs[..j] == langs;
    }

    /** Loads every default bundle for every language. */
    method LoadDefaultResourceBundles(override: bool, langs: seq<Lang>, bundles: map<(string, Lang), map<string, string>>)
      requires Valid()
      modifies this
      ensures Valid()
      ensures store == LoadAll(old(store), DefaultBundles, langs, bundles, override)
      ensures forall n :: n in old(cache) && n !in DefaultBundles ==> n in cache
    {
      var i := 0;
      while i < |DefaultBundles|
        invariant 0 <= i <= |DefaultBundles|
        invariant Valid()
        invariant store == LoadAll(old(store), DefaultBundles[..i], langs, bundles, override)
        invariant forall n :: n in old(cache) && n !in DefaultBundles ==> n in cache
      {
        assert DefaultBundles[..i + 1][..i] == DefaultBundles[..i];
        LoadResourceBundle(DefaultBundles[i], override, langs, bundles);
        i := i + 1;
      }
      assert DefaultBundles[..i] == DefaultBundles;
    }
  }
}
