/**
 * Keywords: one entry per keyword that is its own parent, listing every
 * word that refers to it, sorted by name.
 */
module Keywords {
  import opened StringUtil

  /** A keyword entry: its name, its description and the words that refer to it. */
  datatype Keyword = Keyword(name: string, description: string, names: seq<string>)

  /** The entries of a `HashMap<String,String>`, in its iteration order. */
  type Dict = seq<(string, string)>

  /** No key occurs twice, as in any map. */
  predicate DistinctKeys(d: Dict)
  {
    forall i, j :: 0 <= i < j < |d| ==> d[i].0 != d[j].0
  }

  /** The keys of `d`. */
  function Keys(d: Dict): set<string>
  {
    set i | 0 <= i < |d| :: d[i].0
  }

  /** `get`: the value stored for `k`, if any. */
  function Lookup(d: Dict, k: string): Option<string>
  {
    if d == [] then None else if d[|d| - 1].0 == k then Some(d[|d| - 1].1) else Lookup(d[..|d| - 1], k)
  }

  /** A keyword gets an entry when it has no parent or is its own parent. */
  predicate IsRoot(parents: Dict, k: string)
  {
    Lookup(parents, k).None? || Lookup(parents, k) == Some(k)
  }

  /** The entries the first loop creates, in order, with no names yet. */
  function Roots(keywords: Dict, parents: Dict): seq<Keyword>
  {
    if keywords == [] then []
    else
      var (k, d) := keywords[|keywords| - 1];
      Roots(keywords[..|keywords| - 1], parents) + (if IsRoot(parents, k) then [Keyword(k, d, [])] else [])
  }

  /** The names of some entries. */
  function Names(es: seq<Keyword>): set<string>
  {
    set e | e in es :: e.name
  }

  /** The words whose parent is `n`, in iteration order. */
  function Children(parents: Dict, n: string): seq<string>
  {
    if parents == [] then []
    else Children(parents[..|parents| - 1], n) + (if parents[|parents| - 1].1 == n then [parents[|parents| - 1].0] else [])
  }

  /** The entries of all root keywords, each listing the words that refer to it. */
  function Grouped(keywords: Dict, parents: Dict): seq<Keyword>
  {
    WithChildren(Roots(keywords, parents), parents)
  }

  /** Each entry with the words that refer to it. */
  function WithChildren(rs: seq<Keyword>, parents: Dict): seq<Keyword>
  {
    seq(|rs|, x requires 0 <= x < |rs| => rs[x].(names := Children(parents, rs[x].name)))
  }

  // ---------------------------------------------------------------------------
  // Order
  // ---------------------------------------------------------------------------

  /** `compareTo`: by name. */
  function Compare(a: Keyword, b: Keyword): (r: int)
    ensures r == 0 <==> a.name == b.name
    ensures r == -JavaCompare(b.name, a.name)
  {
    JavaCompareZero(a.name, b.name);
    JavaCompareAntisymmetric(a.name, b.name);
    JavaCompare(a.name, b.name)
  }

  lemma CompareTransitive(a: Keyword, b: Keyword, c: Keyword)
    requires Compare(a, b) <= 0 && Compare(b, c) <= 0
    ensures Compare(a, c) <= 0
  {
    JavaCompareTransitive(a.name, b.name, c.name);
  }

  predicate Sorted(s: seq<Keyword>)
  {
    forall i, j :: 0 <= i < j < |s| ==> Compare(s[i], s[j]) <= 0
  }

  /** Puts `x` before the first entry it does not follow. */
  function Insert(x: Keyword, s: seq<Keyword>): seq<Keyword>
  {
    if s == [] then [x]
    else if Compare(x, s[0]) <= 0 then [x] + s
    else [s[0]] + Insert(x, s[1..])
  }

  /** `Collections.sort` by name, written as an insertion sort. */
  function SortByName(s: seq<Keyword>): seq<Keyword>
  {
    if s == [] then [] else Insert(s[0], SortByName(s[1..]))
  }

  lemma {:induction false} InsertPermutation(x: Keyword, s: seq<Keyword>)
    ensures multiset(Insert(x, s)) == multiset(s) + multiset{x}
  {
    if s != [] && Compare(x, s[0]) > 0 {
      InsertPermutation(x, s[1..]);
      assert s == [s[0]] + s[1..];
    }
  }

  lemma {:induction false} InsertSorted(x: Keyword, s: seq<Keyword>)
    requires Sorted(s)
    ensures Sorted(Insert(x, s))
  {
    if s == [] {
    } else if Compare(x, s[0]) <= 0 {
      forall j | 0 <= j < |s|
        ensures Compare(x, s[j]) <= 0
      {
        if j > 0 {
          CompareTransitive(x, s[0], s[j]);
        }
      }
      ConsSorted(x, s);
    } else {
      var t := Insert(x, s[1..]);
      assert Sorted(s[1..]);
      InsertSorted(x, s[1..]);
      InsertPermutation(x, s[1..]);
      forall j | 0 <= j < |t|
        ensures Compare(s[0], t[j]) <= 0
      {
        assert t[j] in multiset(s[1..]) + multiset{x};
        if t[j] != x {
          var k :| 0 <= k < |s[1..]| && s[1..][k] == t[j];
          assert s[k + 1] == t[j];
        }
      }
      ConsSorted(s[0], t);
    }
  }

  /** An entry that precedes every entry of a sorted list can go first. */
  lemma ConsSorted(h: Keyword, t: seq<Keyword>)
    requires Sorted(t) && forall j :: 0 <= j < |t| ==> Compare(h, t[j]) <= 0
    ensures Sorted([h] + t)
  {
    assert forall j :: 0 < j <= |t| ==> ([h] + t)[j] == t[j - 1];
  }

  /** Sorting orders the entries by name and keeps exactly the same entries. */
  lemma {:induction false} SortByNameCorrect(s: seq<Keyword>)
    ensures Sorted(SortByName(s))
    ensures multiset(SortByName(s)) == multiset(s)
  {
    if s != [] {
      SortByNameCorrect(s[1..]);
      InsertSorted(s[0], SortByName(s[1..]));
      InsertPermutation(s[0], SortByName(s[1..]));
      assert s == [s[0]] + s[1..];
    }
  }

  // ---------------------------------------------------------------------------
  // exportAllKeywords
  // ---------------------------------------------------------------------------

  lemma {:induction false} RootsNamesAreKeys(keywords: Dict, parents: Dict)
    ensures forall e :: e in Roots(keywords, parents) ==> e.name in Keys(keywords) && IsRoot(parents, e.name) && e.names == []
  {
    if keywords != [] {
      var init := keywords[..|keywords| - 1];
      RootsNamesAreKeys(init, parents);
      assert forall i :: 0 <= i < |init| ==> init[i] == keywords[i];
      assert Keys(init) <= Keys(keywords);
    }
  }

  /** A keyword has an entry exactly when it has no parent or is its own parent. */
  lemma {:induction false} RootsExactly(keywords: Dict, parents: Dict)
    ensures forall k :: k in Names(Roots(keywords, parents)) <==> k in Keys(keywords) && IsRoot(parents, k)
  {
    if keywords != [] {
      var init, last := keywords[..|keywords| - 1], keywords[|keywords| - 1];
      RootsExactly(init, parents);
      assert keywords == init + [last];
      assert Keys(keywords) == Keys(init) + {last.0} by {
        assert forall i :: 0 <= i < |init| ==> init[i] == keywords[i];
      }
      var extra := if IsRoot(parents, last.0) then [Keyword(last.0, last.1, [])] else [];
      assert Names(Roots(keywords, parents)) == Names(Roots(init, parents)) + Names(extra);
    }
  }

  /** A key not seen before has no entry yet. */
  lemma NewKey(keywords: Dict, parents: Dict, i: nat)
    requires DistinctKeys(keywords) && i < |keywords|
    ensures keywords[i].0 !in Names(Roots(keywords[..i], parents))
  {
    RootsNamesAreKeys(keywords[..i], parents);
  }

  /** The first loop: an entry for each root keyword, and the index of each entry by name. */
  method CollectRoots(keywords: Dict, parents: Dict) returns (entries: seq<Keyword>, lookup: map<string, nat>)
    requires DistinctKeys(keywords)
    ensures entries == Roots(keywords, parents)
    ensures lookup.Keys == Names(entries)
    ensures forall k :: k in lookup ==> lookup[k] < |entries| && entries[lookup[k]].name == k
  {
    entries := [];
    lookup := map[];
    var i := 0;
    while i < |keywords|
      invariant i <= |keywords|
      invariant entries == Roots(keywords[..i], parents)
      invariant lookup.Keys == Names(entries)
      invariant forall k :: k in lookup ==> lookup[k] < |entries| && entries[lookup[k]].name == k
    {
      var (key, description) := keywords[i];
      assert keywords[..i + 1][..i] == keywords[..i];
      var parent := Lookup(parents, key);
      if parent.None? || parent.value == key {
        NewKey(keywords, parents, i);
        lookup := lookup[key := |entries|];
        entries := entries + [Keyword(key, description, [])];
      }
      i := i + 1;
    }
    assert keywords[..i] == keywords;
  }

  /** `entries` are `roots` with the words among the first `j` of `parents` attached. */
  predicate Attached(entries: seq<Keyword>, roots: seq<Keyword>, parents: Dict, j: nat)
    requires j <= |parents|
  {
    |entries| == |roots| && forall x :: 0 <= x < |roots| ==> entries[x] == roots[x].(names := Children(parents[..j], roots[x].name))
  }

  /** Appending word `j` to the entry of its parent attaches one more word. */
  lemma AttachStep(entries: seq<Keyword>, roots: seq<Keyword>, parents: Dict, j: nat, x: nat)
    requires forall x, y :: 0 <= x < y < |roots| ==> roots[x].name != roots[y].name
    requires j < |parents| && Attached(entries, roots, parents, j)
    requires x < |roots| && roots[x].name == parents[j].1
    ensures Attached(entries[x := entries[x].(names := entries[x].names + [parents[j].0])], roots, parents, j + 1)
  {
    assert parents[..j + 1][..j] == parents[..j];
    var e := entries[x := entries[x].(names := entries[x].names + [parents[j].0])];
    forall y | 0 <= y < |roots|
      ensures e[y] == roots[y].(names := Children(parents[..j + 1], roots[y].name))
    {
      if y != x {
        assert roots[y].name != roots[x].name;
      }
    }
  }

  /**
   * The second loop: each word is appended to its parent's entry, or the
   * lookup of a parent without an entry gives `None`.
   */
  method AttachNames(roots: seq<Keyword>, lookup: map<string, nat>, parents: Dict) returns (r: Option<seq<Keyword>>)
    requires forall x, y :: 0 <= x < y < |roots| ==> roots[x].name != roots[y].name
    requires forall x :: 0 <= x < |roots| ==> roots[x].names == []
    requires forall k :: k in lookup ==> lookup[k] < |roots| && roots[lookup[k]].name == k
    ensures r.None? <==> exists i :: 0 <= i < |parents| && parents[i].1 !in lookup
    ensures r.Some? ==> r.value == WithChildren(roots, parents)
  {
    var entries := roots;
    var j := 0;
    assert parents[..0] == [];
    while j < |parents|
      invariant j <= |parents| && Attached(entries, roots, parents, j)
      invariant forall t :: 0 <= t < j ==> parents[t].1 in lookup
    {
      var (child, parent) := parents[j];
      if parent !in lookup {
        return None;
      }
      var x := lookup[parent];
      AttachStep(entries, roots, parents, j, x);
      entries := entries[x := entries[x].(names := entries[x].names + [child])];
      j := j + 1;
    }
    assert parents[..j] == parents;
    r := Some(entries);
  }

  /**
   * `exportAllKeywords`, with `keywords` the entries of `GameDictionary.keywords`
   * and `parents` those of `GameDictionary.parentWord`. The result is `None`
   * where the Java code fails on a null lookup: some word's parent has no entry.
   */
  method ExportAllKeywords(keywords: Dict, parents: Dict) returns (r: Option<seq<Keyword>>)
    requires DistinctKeys(keywords)
    ensures r.None? <==> exists i :: 0 <= i < |parents| && parents[i].1 !in Names(Roots(keywords, parents))
    ensures r.Some? ==> Sorted(r.value) && multiset(r.value) == multiset(Grouped(keywords, parents))
  {
    var roots, lookup := CollectRoots(keywords, parents);
    RootsNamesAreKeys(keywords, parents);
    forall x, y | 0 <= x < y < |roots|
      ensures roots[x].name != roots[y].name
    {
      DistinctRootNames(keywords, parents, x, y);
    }
    var grouped := AttachNames(roots, lookup, parents);
    if grouped.None? {
      return None;
    }
    r := Some(SortByName(grouped.value));
    SortByNameCorrect(grouped.value);
  }

  /** Entries come from distinct keys, so their names are distinct. */
  lemma {:induction false} DistinctRootNames(keywords: Dict, parents: Dict, x: nat, y: nat)
    requires DistinctKeys(keywords)
    requires x < y < |Roots(keywords, parents)|
    ensures Roots(keywords, parents)[x].name != Roots(keywords, parents)[y].name
  {
    var init := keywords[..|keywords| - 1];
    var rs := Roots(init, parents);
    assert DistinctKeys(init);
    if y < |rs| {
      DistinctRootNames(init, parents, x, y);
    } else {
      RootsNamesAreKeys(init, parents);
      assert rs[x] in rs;
      var k :| 0 <= k < |init| && init[k].0 == rs[x].name;
      assert keywords[k].0 != keywords[|keywords| - 1].0;
    }
  }
}
