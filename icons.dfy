/** Icon name resolution over the merged react-icons registry, and the list
    of icons offered to the picker. The libraries' contents are inputs: each
    library is the list of its exports in key order. */
module Icons {

  import opened Wrappers

  /** The identity of an icon component. */
  datatype IconId = IconId(id: nat)

  /** An object of icon components, as its entries in key order. */
  type Entries = seq<(string, IconId)>

  function Keys(e: Entries): (ks: seq<string>)
    ensures |ks| == |e| && forall i | 0 <= i < |e| :: ks[i] == e[i].0
  {
    if e == [] then [] else [e[0].0] + Keys(e[1..])
  }

  /** No key twice, as in every JavaScript object. */
  predicate DistinctKeys(e: Entries) {
    forall i, j | 0 <= i < j < |e| :: e[i].0 != e[j].0
  }

  /** `obj[key]`. */
  function Lookup(e: Entries, key: string): (r: Option<IconId>)
    ensures r.Some? <==> key in Keys(e)
  {
    if e == [] then None else if e[0].0 == key then Some(e[0].1) else Lookup(e[1..], key)
  }

  /** Writing `key: v` into an object: a known key keeps its place and takes
      the new value, a new key goes last. */
  function Put(e: Entries, key: string, v: IconId): (r: Entries)
    ensures key in Keys(e) ==> Keys(r) == Keys(e)
    ensures key !in Keys(e) ==> Keys(r) == Keys(e) + [key]
  {
    if e == [] then [(key, v)]
    else if e[0].0 == key then [(key, v)] + e[1..]
    else [e[0]] + Put(e[1..], key, v)
  }

  /** `{...acc, ...lib}`. */
  function Spread(acc: Entries, lib: Entries): Entries
    decreases |lib|
  {
    if lib == [] then acc else Spread(Put(acc, lib[0].0, lib[0].1), lib[1..])
  }

  /** `{...libs[0], ...libs[1], ...}`: the registry `IconLibraries`. */
  function Merge(libs: seq<Entries>): Entries
    decreases |libs|
  {
    if libs == [] then [] else Spread(Merge(libs[..|libs| - 1]), libs[|libs| - 1])
  }

  /** Where `key` resolves when later libraries override earlier ones. */
  function LastDefinition(libs: seq<Entries>, key: string): Option<IconId>
    decreases |libs|
  {
    if libs == [] then None
    else if key in Keys(libs[|libs| - 1]) then Lookup(libs[|libs| - 1], key)
    else LastDefinition(libs[..|libs| - 1], key)
  }

  /** The twenty-five namespaces, in the order they are merged and listed. */
  const LibraryNames: seq<string> := [
    "Ai", "Bi", "Bs", "Ci", "Fa", "Fa6", "Fi", "Gi", "Go", "Gr", "Hi", "Hi2", "Im",
    "Io", "Io5", "Lu", "Md", "Pi", "Ri", "Si", "Sl", "Tb", "Ti", "Vsc", "Wi"]

  // ---------------------------------------------------------------- names

  datatype Weight = Thin | Light | Regular | Bold | Fill | Duotone

  /** `weightPrefixMap[weight]`. */
  function WeightSuffix(w: Weight): string {
    match w
    case Thin => "Outline"
    case Light => "Light"
    case Regular => ""
    case Bold => "Bold"
    case Fill => "Fill"
    case Duotone => "Duotone"
  }

  function Min(a: nat, b: nat): nat { if a <= b then a else b }

  /** `s.substring(0, 2)` and `s.substring(2)`, which clamp to the string. */
  function Head2(s: string): string { s[..Min(2, |s|)] }
  function Tail2(s: string): string { s[Min(2, |s|)..] }

  predicate StartsWith(s: string, prefix: string) {
    |prefix| <= |s| && s[..|prefix|] == prefix
  }

  /** The names `getIconWithWeight` tries, in order. */
  function Candidates(name: string, w: Weight): seq<string> {
    if StartsWith(name, "Pi") then ["Pi" + Tail2(name) + WeightSuffix(w)]
    else [name, Head2(name) + Tail2(name) + WeightSuffix(w)]
  }

  /** The first candidate the registry has, in order. */
  function FirstMatch(registry: Entries, names: seq<string>): (r: Option<IconId>)
    ensures r.Some? <==> exists i | 0 <= i < |names| :: names[i] in Keys(registry)
    ensures r.Some? ==> exists i | 0 <= i < |names| ::
      r == Lookup(registry, names[i]) && forall j | 0 <= j < i :: names[j] !in Keys(registry)
  {
    if names == [] then None
    else if names[0] in Keys(registry) then Lookup(registry, names[0])
    else
      var r := FirstMatch(registry, names[1..]);
      FirstMatchSkip(registry, names, r);
      r
  }

  /** Skipping a candidate the registry lacks keeps the first match. */
  lemma FirstMatchSkip(registry: Entries, names: seq<string>, r: Option<IconId>)
    requires names != [] && names[0] !in Keys(registry)
    requires r.Some? <==> exists i | 0 <= i < |names[1..]| :: names[1..][i] in Keys(registry)
    requires r.Some? ==> exists i | 0 <= i < |names[1..]| ::
      r == Lookup(registry, names[1..][i]) && forall j | 0 <= j < i :: names[1..][j] !in Keys(registry)
    ensures r.Some? <==> exists i | 0 <= i < |names| :: names[i] in Keys(registry)
    ensures r.Some? ==> exists i | 0 <= i < |names| ::
      r == Lookup(registry, names[i]) && forall j | 0 <= j < i :: names[j] !in Keys(registry)
  {
    var tail := names[1..];
    if exists i | 0 <= i < |names| :: names[i] in Keys(registry) {
      var i :| 0 <= i < |names| && names[i] in Keys(registry);
      assert i > 0 && tail[i - 1] in Keys(registry);
    }
    if r.Some? {
      var i :| 0 <= i < |tail| && r == Lookup(registry, tail[i]) && forall j | 0 <= j < i :: tail[j] !in Keys(registry);
      assert names[i + 1] == tail[i];
      assert forall j | 0 <= j < i + 1 :: names[j] !in Keys(registry) by {
        forall j | 0 <= j < i + 1 ensures names[j] !in Keys(registry) {
          if j > 0 {
            assert names[j] == tail[j - 1];
          }
        }
      }
    }
  }

  /** What `Icon` renders: `None` is the fallback. An empty name is not
      looked up at all. */
  function Resolve(registry: Entries, name: string, w: Weight): Option<IconId> {
    if name == "" then None
    else if StartsWith(name, "Pi") then Lookup(registry, Candidates(name, w)[0])
    else FirstMatch(registry, Candidates(name, w))
  }

  // ---------------------------------------------------------------- the listing

  /** `availableIcons` as written: keys whose first two characters are a
      library name. */
  function AvailableIconsAsWritten(registry: Entries): seq<string> {
    FilterKeys(Keys(registry), (k: string) => Head2(k) in LibraryNames)
  }

  /** `availableIcons` as evidently intended: keys that start with a library
      name. */
  function AvailableIcons(registry: Entries): seq<string> {
    FilterKeys(Keys(registry), (k: string) => exists i | 0 <= i < |LibraryNames| :: StartsWith(k, LibraryNames[i]))
  }

  /** `a` is `b` with some elements dropped, the rest in their order. */
  predicate IsSubsequence(a: seq<string>, b: seq<string>)
    decreases |b|
  {
    if a == [] then true
    else if b == [] then false
    else if a[0] == b[0] then IsSubsequence(a[1..], b[1..])
    else IsSubsequence(a, b[1..])
  }

  /** `Array.prototype.filter`: the keys that pass, each as often as it
      occurs, in their order. */
  function FilterKeys(ks: seq<string>, keep: string -> bool): (r: seq<string>)
    ensures forall k :: k in r <==> k in ks && keep(k)
    ensures forall k :: multiset(r)[k] == if keep(k) then multiset(ks)[k] else 0
    ensures IsSubsequence(r, ks)
    ensures |r| <= |ks|
  {
    if ks == [] then []
    else
      assert ks == [ks[0]] + ks[1..];
      if keep(ks[0]) then [ks[0]] + FilterKeys(ks[1..], keep)
      else
        var r := FilterKeys(ks[1..], keep);
        assert r == [] || r[0] != ks[0];
        r
  }

  // ---------------------------------------------------------------- proofs

  lemma {:induction false} PutLookup(e: Entries, key: string, v: IconId, other: string)
    ensures Lookup(Put(e, key, v), key) == Some(v)
    ensures other != key ==> Lookup(Put(e, key, v), other) == Lookup(e, other)
    decreases |e|
  {
    if e != [] && e[0].0 != key {
      PutLookup(e[1..], key, v, other);
    }
  }

  lemma {:induction false} PutKeepsDistinct(e: Entries, key: string, v: IconId)
    requires DistinctKeys(e)
    ensures DistinctKeys(Put(e, key, v))
  {
    var r := Put(e, key, v);
    assert Keys(r) == Keys(e) || Keys(r) == Keys(e) + [key];
    forall i, j | 0 <= i < j < |r| ensures r[i].0 != r[j].0 {
      assert Keys(r)[i] == r[i].0 && Keys(r)[j] == r[j].0;
      if j == |e| {
        assert key !in Keys(e);
        assert Keys(e)[i] == e[i].0;
      } else {
        assert Keys(e)[i] == e[i].0 && Keys(e)[j] == e[j].0;
      }
    }
  }

  /** After `{...acc, ...lib}` a key of `lib` resolves to `lib`'s value and
      any other key as in `acc`; no key appears twice. */
  lemma {:induction false} SpreadLookup(acc: Entries, lib: Entries, key: string)
    requires DistinctKeys(lib) && DistinctKeys(acc)
    ensures DistinctKeys(Spread(acc, lib))
    ensures Lookup(Spread(acc, lib), key) == if key in Keys(lib) then Lookup(lib, key) else Lookup(acc, key)
    decreases |lib|
  {
    if lib != [] {
      var acc' := Put(acc, lib[0].0, lib[0].1);
      PutKeepsDistinct(acc, lib[0].0, lib[0].1);
      PutLookup(acc, lib[0].0, lib[0].1, key);
      assert DistinctKeys(lib[1..]);
      SpreadLookup(acc', lib[1..], key);
      if key == lib[0].0 {
        assert key !in Keys(lib[1..]) by {
          forall i | 0 <= i < |lib[1..]| ensures Keys(lib[1..])[i] != key {
            assert lib[1..][i] == lib[i + 1];
          }
        }
      }
      assert Keys(lib) == [lib[0].0] + Keys(lib[1..]);
    }
  }

  /** In the merged registry a later library overrides an earlier one on an
      equal key, and every other key keeps the value of the library that has
      it. */
  lemma {:induction false} MergeLookup(libs: seq<Entries>, key: string)
    requires forall i | 0 <= i < |libs| :: DistinctKeys(libs[i])
    ensures DistinctKeys(Merge(libs))
    ensures Lookup(Merge(libs), key) == LastDefinition(libs, key)
    decreases |libs|
  {
    if libs != [] {
      MergeLookup(libs[..|libs| - 1], key);
      SpreadLookup(Merge(libs[..|libs| - 1]), libs[|libs| - 1], key);
    }
  }

  /** A `Pi` name has one candidate: itself with the weight's suffix, so under
      the default weight just the name. */
  lemma PhosphorCandidate(name: string, w: Weight)
    requires StartsWith(name, "Pi")
    ensures Candidates(name, w) == [name + WeightSuffix(w)]
    ensures w == Regular ==> Candidates(name, w) == [name]
  {
    assert "Pi" + Tail2(name) == name;
    assert name + WeightSuffix(Regular) == name;
  }

  /** Any other name is tried as it is, then with the weight's suffix. */
  lemma OtherCandidates(name: string, w: Weight)
    requires !StartsWith(name, "Pi")
    ensures Candidates(name, w) == [name, name + WeightSuffix(w)]
  {
    assert Head2(name) + Tail2(name) == name;
  }

  /** `Icon` renders the registry's entry for the first candidate it has,
      and the fallback when it has none or the name is empty. */
  lemma ResolveFirstCandidate(registry: Entries, name: string, w: Weight)
    ensures name == "" ==> Resolve(registry, name, w) == None
    ensures name != "" ==>
      (Resolve(registry, name, w).Some? <==> exists c | c in Candidates(name, w) :: c in Keys(registry))
    ensures name != "" && !StartsWith(name, "Pi") && name in Keys(registry) ==>
      Resolve(registry, name, w) == Lookup(registry, name)
    ensures name != "" && !StartsWith(name, "Pi") && name !in Keys(registry) ==>
      Resolve(registry, name, w) == Lookup(registry, name + WeightSuffix(w))
  {
    if name != "" && !StartsWith(name, "Pi") {
      OtherCandidates(name, w);
      var cs := Candidates(name, w);
      if FirstMatch(registry, cs).Some? {
        var i :| 0 <= i < |cs| && cs[i] in Keys(registry);
      }
    }
  }

  /** As written, the listing keeps exactly the keys whose first two
      characters are a library name, in registry order. */
  lemma AsWrittenListing(registry: Entries, key: string)
    ensures key in AvailableIconsAsWritten(registry) <==> key in Keys(registry) && Head2(key) in LibraryNames
  {
  }

  /** So the three-letter names Fa6, Hi2, Io5 and Vsc never match a key by
      themselves, and a key starting with "Vsc" is never listed. */
  lemma VscIconsNeverListed(registry: Entries, key: string)
    requires StartsWith(key, "Vsc")
    ensures key !in AvailableIconsAsWritten(registry)
  {
    assert Head2(key) == "Vs";
    assert forall i | 0 <= i < |LibraryNames| :: LibraryNames[i] != "Vs";
  }

  /** The intended listing keeps every key that starts with a library name,
      "Vsc" keys included. */
  lemma ListingKeepsLibraryKeys(registry: Entries, key: string)
    ensures key in AvailableIcons(registry) <==>
      key in Keys(registry) && exists i | 0 <= i < |LibraryNames| :: StartsWith(key, LibraryNames[i])
    ensures key in Keys(registry) && StartsWith(key, "Vsc") ==> key in AvailableIcons(registry)
  {
    if key in Keys(registry) && StartsWith(key, "Vsc") {
      assert LibraryNames[23] == "Vsc";
    }
  }

  /** Every key the code as written lists is also in the intended listing. */
  lemma AsWrittenWithinIntended(registry: Entries, key: string)
    requires key in AvailableIconsAsWritten(registry)
    ensures key in AvailableIcons(registry)
  {
    AsWrittenListing(registry, key);
    HeadIsPrefix(key);
    ListingKeepsLibraryKeys(registry, key);
  }

  /** A key whose first two characters are a library name starts with it. */
  lemma HeadIsPrefix(key: string)
    requires Head2(key) in LibraryNames
    ensures exists i | 0 <= i < |LibraryNames| :: StartsWith(key, LibraryNames[i])
  {
    var i :| 0 <= i < |LibraryNames| && LibraryNames[i] == Head2(key);
    assert |LibraryNames[i]| >= 2 by {
      assert forall j | 0 <= j < |LibraryNames| :: |LibraryNames[j]| >= 2;
    }
    assert StartsWith(key, LibraryNames[i]);
  }
}
