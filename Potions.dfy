/**
 * Potions: which character class each potion belongs to, the record built
 * for each potion, and the order in which potions are listed.
 */
module Potions {
  import opened StringUtil
  import opened ExportPaths
  import opened ExportHelper

  /** A player class, as the ordinal of `AbstractPlayer.PlayerClass`. */
  type PlayerClass = nat

  /** What is known of a potion id: the one class that offers it, or `None` once two lists have named it. */
  type ClassTable = map<string, Option<PlayerClass>>

  // ---------------------------------------------------------------------------
  // getAllPotionIds
  // ---------------------------------------------------------------------------

  /** The table after one more potion id, listed by class `cls`. */
  function Note(m: ClassTable, id: string, cls: PlayerClass): ClassTable
  {
    if id in m then m[id := None] else m[id := Some(cls)]
  }

  /** The table after the potion list `l` of class `cls`. */
  function NoteList(m: ClassTable, l: seq<string>, cls: PlayerClass): ClassTable
    decreases |l|
  {
    if l == [] then m else Note(NoteList(m, l[..|l| - 1], cls), l[|l| - 1], cls)
  }

  /** The table after the potion lists of the classes `0 .. |lists| - 1`, in that order. */
  function Tally(lists: seq<seq<string>>): ClassTable
    decreases |lists|
  {
    if lists == [] then map[] else NoteList(Tally(lists[..|lists| - 1]), lists[|lists| - 1], |lists| - 1)
  }

  /** How often `id` occurs in `l`. */
  function Count(l: seq<string>, id: string): nat
    decreases |l|
  {
    if l == [] then 0 else Count(l[..|l| - 1], id) + (if l[|l| - 1] == id then 1 else 0)
  }

  /** How often `id` occurs in all the lists together. */
  function Occurrences(lists: seq<seq<string>>, id: string): nat
    decreases |lists|
  {
    if lists == [] then 0 else Occurrences(lists[..|lists| - 1], id) + Count(lists[|lists| - 1], id)
  }

  lemma {:induction false} CountPositive(l: seq<string>, id: string)
    ensures Count(l, id) > 0 <==> id in l
    decreases |l|
  {
    if l != [] {
      CountPositive(l[..|l| - 1], id);
      assert l == l[..|l| - 1] + [l[|l| - 1]];
    }
  }

  /** What one class's list does to the entry of `id`. */
  lemma {:induction false} NoteListEntry(m: ClassTable, l: seq<string>, cls: PlayerClass, id: string)
    ensures id in NoteList(m, l, cls) <==> id in m || Count(l, id) > 0
    ensures Count(l, id) == 0 && id in m ==> NoteList(m, l, cls)[id] == m[id]
    ensures Count(l, id) > 0 ==> NoteList(m, l, cls)[id] == if id in m || Count(l, id) >= 2 then None else Some(cls)
    decreases |l|
  {
    if l != [] {
      NoteListEntry(m, l[..|l| - 1], cls, id);
    }
  }

  /**
   * The meaning of the table: an id is a key exactly when some list names
   * it; it maps to `None` exactly when it is named twice or more (by two
   * classes, or twice by one); otherwise it maps to the class that names it.
   */
  lemma {:induction false} TallyEntry(lists: seq<seq<string>>, id: string)
    ensures id in Tally(lists) <==> Occurrences(lists, id) > 0
    ensures id in Tally(lists) ==> (Tally(lists)[id].None? <==> Occurrences(lists, id) >= 2)
    ensures id in Tally(lists) && Tally(lists)[id].Some? ==>
      Tally(lists)[id].value < |lists| && id in lists[Tally(lists)[id].value]
    decreases |lists|
  {
    if lists != [] {
      var init, l, cls := lists[..|lists| - 1], lists[|lists| - 1], |lists| - 1;
      TallyEntry(init, id);
      NoteListEntry(Tally(init), l, cls, id);
      CountPositive(l, id);
      assert forall k :: 0 <= k < |init| ==> init[k] == lists[k];
    }
  }

  /** An id named exactly once is named by a single class. */
  lemma {:induction false} OnceMeansOneClass(lists: seq<seq<string>>, id: string, j: nat, k: nat)
    requires Occurrences(lists, id) == 1
    requires j < |lists| && k < |lists| && id in lists[j] && id in lists[k]
    ensures j == k
    decreases |lists|
  {
    var init, l := lists[..|lists| - 1], lists[|lists| - 1];
    CountPositive(l, id);
    if j < |lists| - 1 && k < |lists| - 1 {
      assert init[j] == lists[j] && init[k] == lists[k];
      OccursPositive(init, id, j);
      OnceMeansOneClass(init, id, j, k);
    } else if j != k {
      var other := if j < |lists| - 1 then j else k;
      assert id in init[other] by {
        assert init[other] == lists[other];
      }
      OccursPositive(init, id, other);
      assert false;
    }
  }

  lemma {:induction false} OccursPositive(lists: seq<seq<string>>, id: string, k: nat)
    requires k < |lists| && id in lists[k]
    ensures Occurrences(lists, id) > 0
    decreases |lists|
  {
    if k < |lists| - 1 {
      assert lists[..|lists| - 1][k] == lists[k];
      OccursPositive(lists[..|lists| - 1], id, k);
    } else {
      CountPositive(lists[k], id);
    }
  }

  /**
   * `getAllPotionIds`, with `lists[k]` the potion list `PotionHelper` holds
   * after being initialised for class `k`.
   */
  method GetAllPotionIds(lists: seq<seq<string>>) returns (potions: ClassTable)
    ensures potions == Tally(lists)
    ensures forall id :: id in potions <==> Occurrences(lists, id) > 0
    ensures forall id :: id in potions ==> (potions[id].None? <==> Occurrences(lists, id) >= 2)
    ensures forall id :: id in potions && potions[id].Some? ==> potions[id].value < |lists| && id in lists[potions[id].value]
  {
    potions := map[];
    var cls := 0;
    while cls < |lists|
      invariant cls <= |lists|
      invariant potions == Tally(lists[..cls])
    {
      var l := lists[cls];
      var i := 0;
      while i < |l|
        invariant i <= |l|
        invariant potions == NoteList(Tally(lists[..cls]), l[..i], cls)
      {
        var id := l[i];
        assert l[..i + 1][..i] == l[..i];
        if id in potions {
          potions := potions[id := None];
        } else {
          potions := potions[id := Some(cls)];
        }
        i := i + 1;
      }
      assert l[..i] == l;
      assert lists[..cls + 1][..cls] == lists[..cls];
      cls := cls + 1;
    }
    assert lists[..cls] == lists;
    forall id {
      TallyEntry(lists, id);
    }
  }

  // ---------------------------------------------------------------------------
  // The potion record and its order
  // ---------------------------------------------------------------------------

  /** A potion record: its id, name, rarity (the enum ordinal that the order reads), class name and image path. */
  datatype Potion = Potion(id: string, name: string, rarity: nat, playerClass: string, image: ExportPath)

  /**
   * The constructor. It reads the `playerClass` field, which is still null,
   * instead of its `cls` argument, so the class name is always empty.
   */
  function NewPotion(h: Helper, mod: Mod, id: string, name: string, rarity: nat, cls: Option<PlayerClass>): (p: Potion)
    ensures p.id == id && p.name == name && p.rarity == rarity
    ensures p.playerClass == ""
    ensures p.image.relativeToMod == "potions/" + MakeFilename(StripModPrefix(mod.id, name)) + ".png"
    ensures p.image.absolute == ModDir(h, mod) + "/" + p.image.relativeToMod
  {
    Potion(id, name, rarity, ClassName(None), ItemPath(h, mod, "potions", name, ".png"))
  }

  /** The constructor's conditional on the (uninitialised) `playerClass` field. */
  function ClassName(field: Option<string>): string
  {
    if field.None? then "" else field.value
  }

  /** `compareTo`: by rarity, then by name. */
  function Compare(a: Potion, b: Potion): (r: int)
    ensures r == 0 <==> a.rarity == b.rarity && a.name == b.name
    ensures a.rarity < b.rarity ==> r < 0
    ensures a.rarity == b.rarity ==> r == JavaCompare(a.name, b.name)
  {
    RankedCompareZero(a.rarity, a.name, b.rarity, b.name);
    RankedCompare(a.rarity, a.name, b.rarity, b.name)
  }

  /** Swapping the potions flips the sign, as `Comparable` requires. */
  lemma CompareAntisymmetric(a: Potion, b: Potion)
    ensures Compare(a, b) == -Compare(b, a)
  {
    RankedCompareAntisymmetric(a.rarity, a.name, b.rarity, b.name);
  }

  lemma CompareTransitive(a: Potion, b: Potion, c: Potion)
    requires Compare(a, b) <= 0 && Compare(b, c) <= 0
    ensures Compare(a, c) <= 0
  {
    RankedCompareTransitive(a.rarity, a.name, b.rarity, b.name, c.rarity, c.name);
  }
}
