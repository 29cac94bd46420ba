// The exported artifact: the timestamp, the named items and difficulty
// records (dictionaries that compare keys ignoring case), the main and event
// quest lines (dictionaries that compare keys exactly), and the holder of
// the three item-rating tables. `Merge` folds a second artifact into this one.
//
// A case-insensitive dictionary is a map keyed by the ASCII upper-case fold
// of each key (`Fold`); the casing a .NET dictionary keeps for the first
// key it saw is not part of this model.
module Artifacts {
  import opened Wrappers
  import opened Text
  import opened ItemRating

  /** A quest line: its objectives, each a list of strings. */
  type QuestLine = seq<seq<string>>

  /** How a dictionary compares its keys. */
  datatype Comparer = Ordinal | OrdinalIgnoreCase

  /** The entry a key is stored under in a dictionary with comparer `c`. */
  function KeyOf(c: Comparer, k: string): (r: string)
    ensures c == Ordinal ==> r == k
    ensures c == OrdinalIgnoreCase ==> r == Fold(k)
  {
    match c
    case Ordinal => k
    case OrdinalIgnoreCase => Fold(k)
  }

  /** Every key of `m` is already the key it is stored under. */
  predicate Normalized<T>(c: Comparer, m: map<string, T>)
  {
    forall k :: k in m ==> KeyOf(c, k) == k
  }

  /** The indexer write `m[k] = v`. */
  function Put<T>(c: Comparer, m: map<string, T>, k: string, v: T): (r: map<string, T>)
    ensures r.Keys == m.Keys + {KeyOf(c, k)} && r[KeyOf(c, k)] == v
    ensures forall j :: j in m && j != KeyOf(c, k) ==> j in r && r[j] == m[j]
  {
    m[KeyOf(c, k) := v]
  }

  lemma PutKeepsNormalized<T>(c: Comparer, m: map<string, T>, k: string, v: T)
    requires Normalized(c, m)
    ensures Normalized(c, Put(c, m, k, v))
  {
    FoldIdempotent(k);
  }

  /**
   * Two writes whose keys differ only in case: one entry in a dictionary
   * that ignores case (the second write wins), two in one that does not.
   */
  lemma CaseOfKeys<T>(x: T, y: T)
    ensures Put(OrdinalIgnoreCase, Put(OrdinalIgnoreCase, map[], "abc", x), "ABC", y) == map["ABC" := y]
    ensures Put(Ordinal, Put(Ordinal, map[], "abc", x), "ABC", y) == map["abc" := x, "ABC" := y]
  {
    assert Fold("abc") == "ABC";
    assert Fold("ABC") == "ABC";
  }

  /** The three tables of item ratings; each is absent until an export fills it. */
  class ItemRatingTables<V> {
    var default: Option<ItemRatingTable<V>>
    var survivor: Option<ItemRatingTable<V>>
    var leadSurvivor: Option<ItemRatingTable<V>>

    constructor ()
      ensures default == None && survivor == None && leadSurvivor == None
    {
      default, survivor, leadSurvivor := None, None, None;
    }

    /** The null-guarded assignments of `Merge`: each present table replaces the current one. */
    method Take(d: Option<ItemRatingTable<V>>, s: Option<ItemRatingTable<V>>, l: Option<ItemRatingTable<V>>)
      modifies this
      ensures default == Override(old(default), d)
      ensures survivor == Override(old(survivor), s)
      ensures leadSurvivor == Override(old(leadSurvivor), l)
    {
      if d.Some? {
        default := d;
      }
      if s.Some? {
        survivor := s;
      }
      if l.Some? {
        leadSurvivor := l;
      }
    }
  }

  /** The contents of an artifact as one value. */
  datatype Contents<Item, Difficulty, V> = Contents(
    exportedAt: int,
    namedItems: map<string, Item>,
    difficultyInfo: map<string, Difficulty>,
    mainQuestLines: map<string, QuestLine>,
    eventQuestLines: map<string, QuestLine>,
    default: Option<ItemRatingTable<V>>,
    survivor: Option<ItemRatingTable<V>>,
    leadSurvivor: Option<ItemRatingTable<V>>)

  /** A present table replaces the current one; an absent one leaves it. */
  function Override<T>(current: Option<T>, incoming: Option<T>): (r: Option<T>)
    ensures incoming.Some? ==> r == incoming
    ensures incoming.None? ==> r == current
  {
    if incoming.Some? then incoming else current
  }

  /** Last write wins: every key of either map, with b's entry where b has one. */
  function Union<T>(a: map<string, T>, b: map<string, T>): (r: map<string, T>)
    ensures r.Keys == a.Keys + b.Keys
    ensures forall k :: k in r ==> r[k] == if k in b then b[k] else a[k]
  {
    a + b
  }

  lemma UnionAssociative<T>(a: map<string, T>, b: map<string, T>, c: map<string, T>)
    ensures Union(Union(a, b), c) == Union(a, Union(b, c))
  {
  }

  lemma UnionAbsorbs<T>(a: map<string, T>, b: map<string, T>)
    ensures Union(Union(a, b), b) == Union(a, b)
  {
  }

  /**
   * What `Merge` makes of `a` when `b` is merged in: b's timestamp, the
   * last-write-wins union of each dictionary with b's entries winning, and
   * b's tables where b has them.
   */
  function Merged<Item, Difficulty, V>(a: Contents<Item, Difficulty, V>, b: Contents<Item, Difficulty, V>): (r: Contents<Item, Difficulty, V>)
    ensures r.exportedAt == b.exportedAt
    ensures r.default == Override(a.default, b.default)
    ensures r.survivor == Override(a.survivor, b.survivor)
    ensures r.leadSurvivor == Override(a.leadSurvivor, b.leadSurvivor)
  {
    Contents(b.exportedAt,
             Union(a.namedItems, b.namedItems), Union(a.difficultyInfo, b.difficultyInfo),
             Union(a.mainQuestLines, b.mainQuestLines), Union(a.eventQuestLines, b.eventQuestLines),
             Override(a.default, b.default), Override(a.survivor, b.survivor),
             Override(a.leadSurvivor, b.leadSurvivor))
  }

  /** An artifact with nothing in it, stamped `t`. */
  function Empty<Item, Difficulty, V>(t: int): Contents<Item, Difficulty, V>
  {
    Contents(t, map[], map[], map[], map[], None, None, None)
  }

  lemma UnionKeepsNormalized<T>(c: Comparer, a: map<string, T>, b: map<string, T>)
    requires Normalized(c, a) && Normalized(c, b)
    ensures Normalized(c, Union(a, b))
  {
  }

  /** Merging in an empty artifact changes only the timestamp. */
  lemma MergeEmpty<Item, Difficulty, V>(a: Contents<Item, Difficulty, V>, t: int)
    ensures Merged(a, Empty(t)) == a.(exportedAt := t)
  {
  }

  /**
   * Merging in an artifact whose dictionaries and tables equal this one's
   * changes only the timestamp, to the incoming one.
   */
  lemma MergeSameContents<Item, Difficulty, V>(a: Contents<Item, Difficulty, V>, b: Contents<Item, Difficulty, V>)
    requires b.(exportedAt := a.exportedAt) == a
    ensures Merged(a, b) == a.(exportedAt := b.exportedAt)
  {
  }

  /** Merging an artifact into itself changes nothing. */
  lemma MergeSelf<Item, Difficulty, V>(a: Contents<Item, Difficulty, V>)
    ensures Merged(a, a) == a
  {
    MergeSameContents(a, a);
  }

  /** Merging the same artifact twice is merging it once. */
  lemma MergeTwice<Item, Difficulty, V>(a: Contents<Item, Difficulty, V>, b: Contents<Item, Difficulty, V>)
    ensures Merged(Merged(a, b), b) == Merged(a, b)
  {
    UnionAbsorbs(a.namedItems, b.namedItems);
    UnionAbsorbs(a.difficultyInfo, b.difficultyInfo);
    UnionAbsorbs(a.mainQuestLines, b.mainQuestLines);
    UnionAbsorbs(a.eventQuestLines, b.eventQuestLines);
  }

  /** Merging b then c is merging in b with c already merged into it. */
  lemma MergeAssociative<Item, Difficulty, V>(a: Contents<Item, Difficulty, V>, b: Contents<Item, Difficulty, V>, c: Contents<Item, Difficulty, V>)
    ensures Merged(Merged(a, b), c) == Merged(a, Merged(b, c))
  {
    UnionAssociative(a.namedItems, b.namedItems, c.namedItems);
    UnionAssociative(a.difficultyInfo, b.difficultyInfo, c.difficultyInfo);
    UnionAssociative(a.mainQuestLines, b.mainQuestLines, c.mainQuestLines);
    UnionAssociative(a.eventQuestLines, b.eventQuestLines, c.eventQuestLines);
  }

  /**
   * The `foreach (var (k, v) in source) target[k] = v;` loop of `Merge`.
   * The keys of `source` are distinct under its comparer, so the order of
   * the writes does not matter.
   */
  method PutAll<T>(c: Comparer, target: map<string, T>, source: map<string, T>) returns (r: map<string, T>)
    requires Normalized(c, source)
    ensures r == Union(target, source)
  {
    r := target;
    var todo := source.Keys;
    while todo != {}
      invariant todo <= source.Keys
      invariant r.Keys == target.Keys + (source.Keys - todo)
      invariant forall k :: k in r ==> r[k] == if k in source && k !in todo then source[k] else target[k]
      decreases todo
    {
      var k :| k in todo;
      r := Put(c, r, k, source[k]);
      todo := todo - {k};
    }
    assert r == Union(target, source);
  }

  class ExportedAssets<Item, Difficulty, V> {
    /** The export time, as a tick count. */
    var exportedAt: int
    var namedItems: map<string, Item>
    const itemRatings: ItemRatingTables<V>
    var difficultyInfo: map<string, Difficulty>
    var mainQuestLines: map<string, QuestLine>
    var eventQuestLines: map<string, QuestLine>

    /** The case-insensitive dictionaries hold folded keys only. */
    predicate Valid()
      reads this
    {
      Normalized(OrdinalIgnoreCase, namedItems) && Normalized(OrdinalIgnoreCase, difficultyInfo)
    }

    function Snapshot(): Contents<Item, Difficulty, V>
      reads this, itemRatings
    {
      Contents(exportedAt, namedItems, difficultyInfo, mainQuestLines, eventQuestLines,
               itemRatings.default, itemRatings.survivor, itemRatings.leadSurvivor)
    }

    /** A new, empty artifact stamped `now`. */
    constructor (now: int)
      ensures Valid() && fresh(itemRatings)
      ensures Snapshot() == Empty(now)
    {
      exportedAt := now;
      namedItems, difficultyInfo := map[], map[];
      mainQuestLines, eventQuestLines := map[], map[];
      itemRatings := new ItemRatingTables();
    }

    /** `NamedItems[k] = v`. */
    method SetNamedItem(k: string, v: Item)
      requires Valid()
      modifies this
      ensures Valid()
      ensures namedItems == Put(OrdinalIgnoreCase, old(namedItems), k, v)
      ensures unchanged(this`exportedAt, this`difficultyInfo, this`mainQuestLines, this`eventQuestLines)
    {
      PutKeepsNormalized(OrdinalIgnoreCase, namedItems, k, v);
      namedItems := Put(OrdinalIgnoreCase, namedItems, k, v);
    }

    /** `MainQuestLines[k] = v`. */
    method SetMainQuestLine(k: string, v: QuestLine)
      requires Valid()
      modifies this
      ensures Valid()
      ensures mainQuestLines == Put(Ordinal, old(mainQuestLines), k, v)
      ensures unchanged(this`exportedAt, this`namedItems, this`difficultyInfo, this`eventQuestLines)
    {
      mainQuestLines := Put(Ordinal, mainQuestLines, k, v);
    }

    /**
     * `Merge`: take other's timestamp, copy every entry of other's four
     * dictionaries over this one's, and take each of other's rating tables
     * that is present. `other` is left as it was.
     */
    method Merge(other: ExportedAssets<Item, Difficulty, V>)
      requires Valid() && other.Valid()
      modifies this, itemRatings
      ensures Valid()
      ensures Snapshot() == Merged(old(Snapshot()), old(other.Snapshot()))
      ensures other.Snapshot() == old(other.Snapshot())
    {
      ghost var before, incoming := Snapshot(), other.Snapshot();
      var stamp, named, difficulty := other.exportedAt, other.namedItems, other.difficultyInfo;
      var main, event := other.mainQuestLines, other.eventQuestLines;
      var ratings := other.itemRatings;
      var default, survivor, lead := ratings.default, ratings.survivor, ratings.leadSurvivor;

      exportedAt := stamp;
      UnionKeepsNormalized(OrdinalIgnoreCase, namedItems, named);
      namedItems := PutAll(OrdinalIgnoreCase, namedItems, named);
      itemRatings.Take(default, survivor, lead);
      UnionKeepsNormalized(OrdinalIgnoreCase, difficultyInfo, difficulty);
      difficultyInfo := PutAll(OrdinalIgnoreCase, difficultyInfo, difficulty);
      mainQuestLines := PutAll(Ordinal, mainQuestLines, main);
      eventQuestLines := PutAll(Ordinal, eventQuestLines, event);
      OtherUnchanged(other, before, incoming);
    }

    /** With `other` the same artifact, or sharing the tables, merging changes nothing of it. */
    lemma OtherUnchanged(other: ExportedAssets<Item, Difficulty, V>, before: Contents<Item, Difficulty, V>, incoming: Contents<Item, Difficulty, V>)
      requires Snapshot() == Merged(before, incoming)
      requires other == this ==> incoming == before
      requires other != this ==> other.Snapshot() == incoming.(default := other.itemRatings.default,
        survivor := other.itemRatings.survivor, leadSurvivor := other.itemRatings.leadSurvivor)
      requires other.itemRatings == itemRatings || (other.itemRatings.default == incoming.default
        && other.itemRatings.survivor == incoming.survivor && other.itemRatings.leadSurvivor == incoming.leadSurvivor)
      requires other.itemRatings == itemRatings ==>
                 (incoming.default == before.default && incoming.survivor == before.survivor
                  && incoming.leadSurvivor == before.leadSurvivor)
      ensures other.Snapshot() == incoming
    {
      if other == this {
        MergeSelf(before);
      }
    }
  }
}
