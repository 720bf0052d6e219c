/**
 * The extractor's driver: one catalog record per document the walk yields,
 * minus the excluded ones, numbered in walk order; the records sorted by
 * (category, name); and the number of records per category.
 *
 * The walk itself is an input: a sequence of files, each with its name,
 * its path relative to the scan root and its full path.
 */
module Catalog {
  import opened PyStr
  import opened Spells

  /** A document found by the walk. */
  datatype SourceFile = SourceFile(name: string, relPath: string, path: string)

  /** A catalog record, with the fields of the exported JSON object. */
  datatype Spell = Spell(
    id: int,
    name: string,
    category: string,
    course: string,
    price: int,
    filePath: string,
    description: string,
    effects: seq<string>,
    difficulty: string)

  const GroupChatLog: string := "群聊记录"
  const Transcript: string := "转写"

  /** Group-chat logs and transcripts are skipped. */
  predicate Excluded(fileName: string)
  {
    Contains(fileName, GroupChatLog) || Contains(fileName, Transcript)
  }

  // ---------------------------------------------------------------------
  // Record assembly
  // ---------------------------------------------------------------------

  /** Every derived field of a record agrees with its category, name and course. */
  predicate WellFormed(s: Spell)
  {
    && s.category in Labels
    && s.price == DeterminePrice(s.category)
    && s.effects == GetEffectsByCategory(s.category)
    && s.difficulty == Difficulty(s.category)
    && s.description == Description(s.name, s.course, s.category)
  }

  /** The record built for file `f` under identifier `id`. */
  function MakeSpell(id: int, f: SourceFile): (s: Spell)
    ensures WellFormed(s)
    ensures s.id == id && s.filePath == f.path
  {
    var name := NormalizedName(f.name);
    var category := Categorize(name);
    var course := Course(f.relPath);
    Spell(id, name, category, course, DeterminePrice(category), f.path,
          Description(name, course, category), GetEffectsByCategory(category), Difficulty(category))
  }

  /** The records for `files`, numbered from `nextId` on, in walk order. */
  function Assembled(files: seq<SourceFile>, nextId: int): seq<Spell>
  {
    if files == [] then []
    else if Excluded(files[0].name) then Assembled(files[1..], nextId)
    else [MakeSpell(nextId, files[0])] + Assembled(files[1..], nextId + 1)
  }

  /** The files that are not excluded, in walk order. */
  function Kept(files: seq<SourceFile>): (r: seq<SourceFile>)
    ensures |r| <= |files|
  {
    if files == [] then []
    else if Excluded(files[0].name) then Kept(files[1..])
    else [files[0]] + Kept(files[1..])
  }

  /** The kept files are exactly the walked files that are not excluded. */
  lemma {:induction false} KeptIsFilter(files: seq<SourceFile>)
    ensures forall f :: f in Kept(files) <==> f in files && !Excluded(f.name)
  {
    if files != [] {
      KeptIsFilter(files[1..]);
      assert files == [files[0]] + files[1..];
    }
  }

  /**
   * The k-th record is built from the k-th kept file under identifier
   * `nextId + k`: excluded files yield no record and use up no identifier.
   */
  lemma {:induction false} AssembledIsKeptNumbered(files: seq<SourceFile>, nextId: int)
    ensures |Assembled(files, nextId)| == |Kept(files)|
    ensures forall k :: 0 <= k < |Kept(files)| ==>
      Assembled(files, nextId)[k] == MakeSpell(nextId + k, Kept(files)[k])
  {
    if files != [] {
      var tail := files[1..];
      if Excluded(files[0].name) {
        AssembledIsKeptNumbered(tail, nextId);
      } else {
        AssembledIsKeptNumbered(tail, nextId + 1);
        var rest, kept := Assembled(tail, nextId + 1), Kept(tail);
        var head := MakeSpell(nextId, files[0]);
        assert Assembled(files, nextId) == [head] + rest;
        assert Kept(files) == [files[0]] + kept;
        forall k | 0 <= k < |Kept(files)|
          ensures Assembled(files, nextId)[k] == MakeSpell(nextId + k, Kept(files)[k])
        {
          if k > 0 {
            assert Assembled(files, nextId)[k] == rest[k - 1];
            assert Kept(files)[k] == kept[k - 1];
          }
        }
      }
    }
  }

  /** One step of the record-building walk. */
  lemma AssembledStep(files: seq<SourceFile>, nextId: int)
    requires files != []
    ensures Excluded(files[0].name) ==> Assembled(files, nextId) == Assembled(files[1..], nextId)
    ensures !Excluded(files[0].name) ==>
      Assembled(files, nextId) == [MakeSpell(nextId, files[0])] + Assembled(files[1..], nextId + 1)
  {
  }

  /** No two records share an identifier. */
  predicate IdsDistinct(spells: seq<Spell>)
  {
    forall i, j :: 0 <= i < j < |spells| ==> spells[i].id != spells[j].id
  }

  /** Identifiers run `nextId, nextId + 1, ...` in record order, so they are distinct. */
  lemma AssembledIds(files: seq<SourceFile>, nextId: int)
    ensures forall k :: 0 <= k < |Assembled(files, nextId)| ==> Assembled(files, nextId)[k].id == nextId + k
    ensures IdsDistinct(Assembled(files, nextId))
  {
    AssembledIsKeptNumbered(files, nextId);
  }

  /** Every record is well formed and its identifier lies in `nextId .. nextId + count - 1`. */
  lemma {:induction false} AssembledWellFormed(files: seq<SourceFile>, nextId: int)
    ensures forall s :: s in Assembled(files, nextId) ==>
      WellFormed(s) && nextId <= s.id < nextId + |Assembled(files, nextId)|
  {
    if files != [] {
      if Excluded(files[0].name) {
        AssembledWellFormed(files[1..], nextId);
      } else {
        AssembledWellFormed(files[1..], nextId + 1);
      }
    }
  }

  /** Only the thunder-rite records are intermediate; prices and effects are as tabled. */
  lemma WellFormedAttributes(s: Spell)
    requires WellFormed(s)
    ensures s.difficulty == Intermediate <==> s.category == CatThunder
    ensures s.price > 0 && |s.effects| == 4
  {
  }

  /** Records of the same category carry the same price, effects and difficulty. */
  lemma SameCategorySameAttributes(a: Spell, b: Spell)
    requires WellFormed(a) && WellFormed(b) && a.category == b.category
    ensures a.price == b.price && a.effects == b.effects && a.difficulty == b.difficulty
  {
  }

  /**
   * The record-building loop: skips excluded files, and gives each kept
   * file the next identifier, starting from 1.
   */
  method AssembleSpells(files: seq<SourceFile>) returns (spells: seq<Spell>)
    ensures spells == Assembled(files, 1)
  {
    spells := [];
    var spellId := 1;
    for i := 0 to |files|
      invariant spellId == |spells| + 1
      invariant spells + Assembled(files[i..], spellId) == Assembled(files, 1)
    {
      var file := files[i];
      AssembledStep(files[i..], spellId);
      assert files[i..][1..] == files[i + 1..];
      if Contains(file.name, GroupChatLog) || Contains(file.name, Transcript) {
        continue;
      }
      var spellName := ExtractSpellInfoFromFilename(file.name);
      var category := Categorize(spellName);
      var course := Course(file.relPath);
      var spell := Spell(spellId, spellName, category, course, DeterminePrice(category), file.path,
                         Description(spellName, course, category), GetEffectsByCategory(category),
                         Difficulty(category));
      assert spell == MakeSpell(spellId, file);
      assert spells + [spell] + Assembled(files[i + 1..], spellId + 1) == spells + Assembled(files[i..], spellId);
      spells := spells + [spell];
      spellId := spellId + 1;
    }
    assert files[|files|..] == [];
  }

  // ---------------------------------------------------------------------
  // Sorting by (category, name)
  // ---------------------------------------------------------------------

  /** Python's `a <= b` on strings: lexicographic by code point. */
  predicate StrLe(a: string, b: string)
  {
    a == [] || (b != [] && (a[0] < b[0] || (a[0] == b[0] && StrLe(a[1..], b[1..]))))
  }

  lemma {:induction false} StrLeTotal(a: string, b: string)
    ensures StrLe(a, b) || StrLe(b, a)
  {
    if a != [] && b != [] && a[0] == b[0] {
      StrLeTotal(a[1..], b[1..]);
    }
  }

  lemma {:induction false} StrLeAntisymmetric(a: string, b: string)
    requires StrLe(a, b) && StrLe(b, a)
    ensures a == b
  {
    if a != [] {
      StrLeAntisymmetric(a[1..], b[1..]);
      assert a == [a[0]] + a[1..] && b == [b[0]] + b[1..];
    }
  }

  lemma {:induction false} StrLeTransitive(a: string, b: string, c: string)
    requires StrLe(a, b) && StrLe(b, c)
    ensures StrLe(a, c)
  {
    if a != [] && a[0] == b[0] && b[0] == c[0] {
      StrLeTransitive(a[1..], b[1..], c[1..]);
    }
  }

  /** The sort key order: `(x.category, x.name) <= (y.category, y.name)` on Python tuples. */
  predicate KeyLe(x: Spell, y: Spell)
  {
    (x.category != y.category && StrLe(x.category, y.category)) ||
    (x.category == y.category && StrLe(x.name, y.name))
  }

  lemma KeyLeTotal(x: Spell, y: Spell)
    ensures KeyLe(x, y) || KeyLe(y, x)
  {
    StrLeTotal(x.category, y.category);
    StrLeTotal(x.name, y.name);
  }

  lemma KeyLeTransitive(x: Spell, y: Spell, z: Spell)
    requires KeyLe(x, y) && KeyLe(y, z)
    ensures KeyLe(x, z)
  {
    if x.category == y.category {
      if y.category == z.category {
        StrLeTransitive(x.name, y.name, z.name);
      }
    } else if y.category == z.category {
    } else {
      StrLeTransitive(x.category, y.category, z.category);
      if x.category == z.category {
        StrLeAntisymmetric(x.category, y.category);
      }
    }
  }

  /** Records are in non-decreasing (category, name) order. */
  predicate Sorted(spells: seq<Spell>)
  {
    forall i, j :: 0 <= i < j < |spells| ==> KeyLe(spells[i], spells[j])
  }

  /** `spells.sort(key=lambda x: (x['category'], x['name']))`, in place. */
  method SortSpells(a: array<Spell>)
    modifies a
    ensures Sorted(a[..])
    ensures multiset(a[..]) == multiset(old(a[..]))
  {
    for i := 0 to a.Length
      invariant forall k, l :: 0 <= k < l < i ==> KeyLe(a[k], a[l])
      invariant multiset(a[..]) == multiset(old(a[..]))
    {
      InsertLast(a, i);
    }
  }

  /**
   * One insertion step: moves `a[i]` left past the larger records of the
   * sorted prefix `a[..i]`, so that `a[..i + 1]` is sorted; the records after
   * `i` stay where they are.
   */
  method InsertLast(a: array<Spell>, i: int)
    requires 0 <= i < a.Length
    requires forall k, l :: 0 <= k < l < i ==> KeyLe(a[k], a[l])
    modifies a
    ensures forall k, l :: 0 <= k < l <= i ==> KeyLe(a[k], a[l])
    ensures multiset(a[..i + 1]) == multiset(old(a[..i + 1]))
    ensures a[i + 1..] == old(a[i + 1..])
    ensures multiset(a[..]) == multiset(old(a[..]))
  {
    var j := i;
    assert SortedExcept(a[..], i, j) && BelowRest(a[..], i, j);
    while j > 0 && !KeyLe(a[j - 1], a[j])
      invariant 0 <= j <= i
      invariant SortedExcept(a[..], i, j) && BelowRest(a[..], i, j)
      invariant multiset(a[..]) == multiset(old(a[..]))
      invariant a[i + 1..] == old(a[i + 1..])
    {
      ghost var s := a[..];
      SwapStep(s, i, j);
      SwapBack(a, j);
      assert a[i + 1..] == s[i + 1..];
      j := j - 1;
    }
    InsertionDone(a[..], i, j);
    SamePrefixMultiset(old(a[..]), a[..], i + 1);
  }

  /** Exchanges `a[j - 1]` and `a[j]`. */
  method SwapBack(a: array<Spell>, j: int)
    requires 0 < j < a.Length
    modifies a
    ensures a[..] == old(a[..])[j - 1 := old(a[j])][j := old(a[j - 1])]
    ensures multiset(a[..]) == multiset(old(a[..]))
  {
    a[j - 1], a[j] := a[j], a[j - 1];
  }

  /** The records of `s[..i + 1]` other than the one at `j` are in order. */
  predicate SortedExcept(s: seq<Spell>, i: int, j: int)
    requires 0 <= j <= i < |s|
  {
    forall k, l :: 0 <= k < l <= i && k != j && l != j ==> KeyLe(s[k], s[l])
  }

  /** The record at `j` is at most every record after it up to `i`. */
  predicate BelowRest(s: seq<Spell>, i: int, j: int)
    requires 0 <= j <= i < |s|
  {
    forall l :: j < l <= i ==> KeyLe(s[j], s[l])
  }

  /** Swapping an out-of-order record one place left keeps the insertion invariant. */
  lemma SwapStep(s: seq<Spell>, i: int, j: int)
    requires 0 < j <= i < |s|
    requires SortedExcept(s, i, j) && BelowRest(s, i, j)
    requires !KeyLe(s[j - 1], s[j])
    ensures var t := s[j - 1 := s[j]][j := s[j - 1]];
      SortedExcept(t, i, j - 1) && BelowRest(t, i, j - 1)
  {
    KeyLeTotal(s[j - 1], s[j]);
  }

  /** Once the moving record is in place, the whole of `s[..i + 1]` is in order. */
  lemma InsertionDone(s: seq<Spell>, i: int, j: int)
    requires 0 <= j <= i < |s|
    requires SortedExcept(s, i, j) && BelowRest(s, i, j)
    requires j == 0 || KeyLe(s[j - 1], s[j])
    ensures forall k, l :: 0 <= k < l <= i ==> KeyLe(s[k], s[l])
  {
    forall k | 0 <= k < j - 1
      ensures KeyLe(s[k], s[j])
    {
      KeyLeTransitive(s[k], s[j - 1], s[j]);
    }
  }

  /**
   * Two permutations of each other that agree from index `n` on are
   * permutations of each other up to `n` as well.
   */
  lemma SamePrefixMultiset(before: seq<Spell>, after: seq<Spell>, n: int)
    requires |before| == |after| && 0 <= n <= |before|
    requires multiset(before) == multiset(after)
    requires before[n..] == after[n..]
    ensures multiset(before[..n]) == multiset(after[..n])
  {
    assert before == before[..n] + before[n..];
    assert after == after[..n] + after[n..];
    assert multiset(before) == multiset(before[..n]) + multiset(before[n..]);
    assert multiset(after) == multiset(after[..n]) + multiset(after[n..]);
    forall x
      ensures multiset(before[..n])[x] == multiset(after[..n])[x]
    {
      assert multiset(before)[x] == multiset(before[..n])[x] + multiset(before[n..])[x];
    }
  }

  /** A reordering of records with distinct identifiers still has distinct identifiers. */
  lemma PermutationKeepsIdsDistinct(a: seq<Spell>, b: seq<Spell>)
    requires multiset(a) == multiset(b) && IdsDistinct(a)
    ensures IdsDistinct(b)
  {
    forall i, j | 0 <= i < j < |b|
      ensures b[i].id != b[j].id
    {
      if b[i].id == b[j].id {
        assert b[i] in multiset(a) && b[j] in multiset(a);
        var p :| 0 <= p < |a| && a[p] == b[i];
        var q :| 0 <= q < |a| && a[q] == b[j];
        assert p == q;
        AtMostOnce(a, b[i]);
        TwiceCounted(b, i, j);
        assert false;
      }
    }
  }

  /** With distinct identifiers, no record occurs twice. */
  lemma {:induction false} AtMostOnce(a: seq<Spell>, x: Spell)
    requires IdsDistinct(a)
    ensures multiset(a)[x] <= 1
  {
    if a != [] {
      var init := a[..|a| - 1];
      assert a == init + [a[|a| - 1]];
      assert IdsDistinct(init);
      AtMostOnce(init, x);
      if x == a[|a| - 1] {
        assert x !in init;
      }
    }
  }

  /** A record at two positions is counted at least twice. */
  lemma TwiceCounted(b: seq<Spell>, i: int, j: int)
    requires 0 <= i < j < |b| && b[i] == b[j]
    ensures multiset(b)[b[i]] >= 2
  {
    assert b == b[..j] + [b[j]] + b[j + 1..];
    assert b[i] in b[..j];
  }

  // ---------------------------------------------------------------------
  // Per-category counts
  // ---------------------------------------------------------------------

  /** The number of records of `category`. */
  function CountOf(spells: seq<Spell>, category: string): nat
  {
    if spells == [] then 0
    else CountOf(spells[..|spells| - 1], category) + (if spells[|spells| - 1].category == category then 1 else 0)
  }

  /** The categories that occur among the records. */
  function CategoriesOf(spells: seq<Spell>): set<string>
  {
    set s | s in spells :: s.category
  }

  /** A category that no record has is counted zero times. */
  lemma {:induction false} CountOfAbsent(spells: seq<Spell>, category: string)
    requires category !in CategoriesOf(spells)
    ensures CountOf(spells, category) == 0
  {
    if spells != [] {
      var init := spells[..|spells| - 1];
      assert CategoriesOf(init) <= CategoriesOf(spells);
      CountOfAbsent(init, category);
    }
  }

  /** The counting loop: one dictionary entry per category that occurs. */
  method CountCategories(spells: seq<Spell>) returns (counts: map<string, nat>)
    ensures counts.Keys == CategoriesOf(spells)
    ensures forall c :: c in counts ==> counts[c] == CountOf(spells, c)
  {
    counts := map[];
    for i := 0 to |spells|
      invariant counts.Keys == CategoriesOf(spells[..i])
      invariant forall c :: c in counts ==> counts[c] == CountOf(spells[..i], c)
    {
      var cat := spells[i].category;
      assert spells[..i + 1][..i] == spells[..i];
      assert CategoriesOf(spells[..i + 1]) == CategoriesOf(spells[..i]) + {cat};
      if cat !in counts {
        CountOfAbsent(spells[..i], cat);
      }
      counts := counts[cat := (if cat in counts then counts[cat] else 0) + 1];
    }
    assert spells[..|spells|] == spells;
  }

  /** The sum of the counts of `keys`, a missing key counting zero. */
  function TotalOver(keys: seq<string>, counts: map<string, nat>): int
  {
    if keys == [] then 0
    else (if keys[0] in counts then counts[keys[0]] else 0) + TotalOver(keys[1..], counts)
  }

  /** The sum over `keys` of the number of records of each. */
  function SumOfCounts(keys: seq<string>, spells: seq<Spell>): int
  {
    if keys == [] then 0 else CountOf(spells, keys[0]) + SumOfCounts(keys[1..], spells)
  }

  /** How often `c` is listed in `keys`. */
  function Occurrences(keys: seq<string>, c: string): int
  {
    if keys == [] then 0 else (if keys[0] == c then 1 else 0) + Occurrences(keys[1..], c)
  }

  predicate NoDuplicates(keys: seq<string>)
  {
    forall i, j :: 0 <= i < j < |keys| ==> keys[i] != keys[j]
  }

  lemma {:induction false} OccurrencesOfListed(keys: seq<string>, c: string)
    requires NoDuplicates(keys) && c in keys
    ensures Occurrences(keys, c) == 1
  {
    if keys[0] == c {
      OccurrencesOfUnlisted(keys[1..], c);
    } else {
      OccurrencesOfListed(keys[1..], c);
    }
  }

  lemma {:induction false} OccurrencesOfUnlisted(keys: seq<string>, c: string)
    requires c !in keys
    ensures Occurrences(keys, c) == 0
  {
    if keys != [] {
      OccurrencesOfUnlisted(keys[1..], c);
    }
  }

  /** Adding a record adds one to the count of each listing of its category. */
  lemma {:induction false} SumOfCountsLast(keys: seq<string>, spells: seq<Spell>)
    requires spells != []
    ensures SumOfCounts(keys, spells) ==
      SumOfCounts(keys, spells[..|spells| - 1]) + Occurrences(keys, spells[|spells| - 1].category)
  {
    if keys != [] {
      SumOfCountsLast(keys[1..], spells);
    }
  }

  /** When every category is listed once, the counts add up to the number of records. */
  lemma {:induction false} SumOfCountsIsLength(keys: seq<string>, spells: seq<Spell>)
    requires NoDuplicates(keys)
    requires forall s :: s in spells ==> s.category in keys
    ensures SumOfCounts(keys, spells) == |spells|
  {
    if spells == [] {
      SumOfCountsEmpty(keys);
    } else {
      var init := spells[..|spells| - 1];
      assert forall s :: s in init ==> s in spells;
      SumOfCountsIsLength(keys, init);
      SumOfCountsLast(keys, spells);
      OccurrencesOfListed(keys, spells[|spells| - 1].category);
    }
  }

  lemma {:induction false} SumOfCountsEmpty(keys: seq<string>)
    ensures SumOfCounts(keys, []) == 0
  {
    if keys != [] {
      SumOfCountsEmpty(keys[1..]);
    }
  }

  /** The dictionary's entries over `keys` add up like the counts themselves. */
  lemma {:induction false} TotalOverCounts(keys: seq<string>, spells: seq<Spell>, counts: map<string, nat>)
    requires counts.Keys == CategoriesOf(spells)
    requires forall c :: c in counts ==> counts[c] == CountOf(spells, c)
    ensures TotalOver(keys, counts) == SumOfCounts(keys, spells)
  {
    if keys != [] {
      if keys[0] !in counts {
        CountOfAbsent(spells, keys[0]);
      }
      TotalOverCounts(keys[1..], spells, counts);
    }
  }

  lemma LabelsDistinct()
    ensures NoDuplicates(Labels)
  {
    forall i, j | 0 <= i < j < |Labels|
      ensures Labels[i] != Labels[j]
    {
      assert Labels[i][0] != Labels[j][0] || Labels[i][1] != Labels[j][1];
    }
  }

  /** The per-category counts of classified records sum to the number of records. */
  lemma CountsSumToTotal(spells: seq<Spell>, counts: map<string, nat>)
    requires forall s :: s in spells ==> s.category in Labels
    requires counts.Keys == CategoriesOf(spells)
    requires forall c :: c in counts ==> counts[c] == CountOf(spells, c)
    ensures TotalOver(Labels, counts) == |spells|
  {
    LabelsDistinct();
    TotalOverCounts(Labels, spells, counts);
    SumOfCountsIsLength(Labels, spells);
  }

  // ---------------------------------------------------------------------
  // The whole run
  // ---------------------------------------------------------------------

  /**
   * Builds the records, sorts them by (category, name) and counts them per
   * category. The output is the assembled records reordered, with distinct
   * identifiers, and the counts add up to the number of records.
   */
  method ExtractCatalog(files: seq<SourceFile>) returns (spells: seq<Spell>, counts: map<string, nat>)
    ensures multiset(spells) == multiset(Assembled(files, 1))
    ensures |spells| == |Kept(files)|
    ensures Sorted(spells)
    ensures IdsDistinct(spells)
    ensures forall s :: s in spells ==> WellFormed(s) && 1 <= s.id <= |spells|
    ensures counts.Keys == CategoriesOf(spells)
    ensures forall c :: c in counts ==> counts[c] == CountOf(spells, c)
    ensures TotalOver(Labels, counts) == |spells|
  {
    var assembled := AssembleSpells(files);
    var a := new Spell[|assembled|](k requires 0 <= k < |assembled| => assembled[k]);
    assert a[..] == assembled;
    SortSpells(a);
    spells := a[..];
    AssembledIsKeptNumbered(files, 1);
    AssembledIds(files, 1);
    PermutationKeepsIdsDistinct(assembled, spells);
    AssembledWellFormed(files, 1);
    assert |spells| == |multiset(spells)| == |multiset(assembled)| == |assembled|;
    forall s | s in spells
      ensures WellFormed(s) && 1 <= s.id <= |spells|
    {
      assert s in multiset(assembled);
    }
    counts := CountCategories(spells);
    CountsSumToTotal(spells, counts);
  }
}
