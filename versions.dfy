/**
 * Version consolidation, `ModrinthAPI.get_all_project_versions` (api.py).
 *
 * The registry may list one release several times (once per loader or game
 * version). The fetched list is merged into one record per non-empty
 * `version_number`: the game-version and loader lists become the sorted
 * union, the publication date the latest one, every other field stays as in
 * the first record seen; the result is sorted newest first by a stable sort.
 * The HTTP request is not modelled: the fetched list is the input.
 */
module Versions {
  import opened Wrappers
  import opened Text

  /** One version record as fetched; a field is `None` when its key is absent. */
  datatype VersionRecord = VersionRecord(
    id: Option<string>,
    versionNumber: Option<string>,
    datePublished: Option<string>,
    gameVersions: Option<seq<string>>,
    loaders: Option<seq<string>>,
    versionType: Option<string>,
    changelog: Option<string>)

  /** `v.get("version_number", "")`, the grouping key. */
  function Key(v: VersionRecord): string {
    v.versionNumber.GetOr("")
  }

  /** `v.get("date_published", "")`, the merge and sort key. */
  function DateKey(v: VersionRecord): string {
    v.datePublished.GetOr("")
  }

  function KeysOf(s: seq<VersionRecord>): (keys: seq<string>)
    ensures |keys| == |s| && forall i :: 0 <= i < |s| ==> keys[i] == Key(s[i])
  {
    seq(|s|, i requires 0 <= i < |s| => Key(s[i]))
  }

  /** Position of the first record with key `k`, or `|s|` when there is none. */
  function IndexOfKey(s: seq<VersionRecord>, k: string): (i: nat)
    ensures i <= |s|
    ensures i < |s| ==> Key(s[i]) == k
    ensures forall j :: 0 <= j < i ==> Key(s[j]) != k
  {
    if s == [] then 0 else if Key(s[0]) == k then 0 else 1 + IndexOfKey(s[1..], k)
  }

  // ---------------------------------------------------------------------------
  // The specification: group in first-occurrence order, then sort by date.
  // ---------------------------------------------------------------------------

  /**
   * Fold a later record `v` of the same version into the stored record
   * (api.py:152-171): the lists become the sorted union of both, the date the
   * later of the two, and every other field stays as stored.
   */
  function Merge(existing: VersionRecord, v: VersionRecord): (m: VersionRecord)
    ensures m.id == existing.id && m.versionNumber == existing.versionNumber
    ensures m.versionType == existing.versionType && m.changelog == existing.changelog
    ensures m.gameVersions.Some? && StrictlySorted(m.gameVersions.value)
    ensures Elems(m.gameVersions.value) == Elems(existing.gameVersions.GetOr([])) + Elems(v.gameVersions.GetOr([]))
    ensures m.loaders.Some? && StrictlySorted(m.loaders.value)
    ensures Elems(m.loaders.value) == Elems(existing.loaders.GetOr([])) + Elems(v.loaders.GetOr([]))
    ensures DateKey(m) == DateKey(existing) || DateKey(m) == DateKey(v)
    ensures !Less(DateKey(m), DateKey(existing)) && !Less(DateKey(m), DateKey(v))
  {
    ElemsConcat(existing.gameVersions.GetOr([]), v.gameVersions.GetOr([]));
    ElemsConcat(existing.loaders.GetOr([]), v.loaders.GetOr([]));
    var later := Less(DateKey(existing), DateKey(v));
    if later then
      LessAsymmetric(DateKey(existing), DateKey(v));
      LessIrreflexive(DateKey(v));
      MergeWith(existing, v, Some(DateKey(v)))
    else
      LessIrreflexive(DateKey(existing));
      MergeWith(existing, v, existing.datePublished)
  }

  /** The stored record with the unions of both lists and the date `date`. */
  function MergeWith(existing: VersionRecord, v: VersionRecord, date: Option<string>): VersionRecord {
    existing.(
      gameVersions := Some(SortedSet(existing.gameVersions.GetOr([]) + v.gameVersions.GetOr([]))),
      loaders := Some(SortedSet(existing.loaders.GetOr([]) + v.loaders.GetOr([]))),
      datePublished := date)
  }

  /** One step of the loop at api.py:144-171 on the dictionary's list of values. */
  function Absorb(groups: seq<VersionRecord>, v: VersionRecord): seq<VersionRecord> {
    if Key(v) == "" then
      groups
    else
      var i := IndexOfKey(groups, Key(v));
      if i == |groups| then groups + [v] else groups[i := Merge(groups[i], v)]
  }

  /**
   * `list(version_dict.values())` after the loop has seen all of `vs`
   * (api.py:143-174): at most one record per input record, none with an
   * empty version number.
   */
  function Group(vs: seq<VersionRecord>): (g: seq<VersionRecord>)
    ensures |g| <= |vs|
    ensures forall i :: 0 <= i < |g| ==> Key(g[i]) != ""
  {
    if vs == [] then [] else Absorb(Group(vs[..|vs| - 1]), vs[|vs| - 1])
  }

  /**
   * Insert `x` behind every element whose date is not older than `x`'s;
   * equal dates keep their order, which makes the sort stable.
   */
  function InsertByDate(sorted: seq<VersionRecord>, x: VersionRecord): seq<VersionRecord> {
    if sorted == [] then
      [x]
    else if !Less(DateKey(sorted[|sorted| - 1]), DateKey(x)) then
      sorted + [x]
    else
      InsertByDate(sorted[..|sorted| - 1], x) + [sorted[|sorted| - 1]]
  }

  /** `s.sort(key=date_published, reverse=True)` (api.py:174-177): a stable sort, newest first. */
  function SortByDate(s: seq<VersionRecord>): seq<VersionRecord> {
    if s == [] then [] else InsertByDate(SortByDate(s[..|s| - 1]), s[|s| - 1])
  }

  /**
   * What `get_all_project_versions` returns for the fetched list `vs`
   * (api.py:139-179): the grouped records, each once, reordered.
   */
  function Consolidate(vs: seq<VersionRecord>): (r: seq<VersionRecord>)
    ensures vs == [] ==> r == []
    ensures multiset(r) == multiset(Group(vs))
    ensures |r| <= |vs|
  {
    if vs == [] then [] else
      SortByDatePermutation(Group(vs));
      assert |multiset(SortByDate(Group(vs)))| == |Group(vs)|;
      SortByDate(Group(vs))
  }

  // ---------------------------------------------------------------------------
  // Reference descriptions the lemmas are stated with.
  // ---------------------------------------------------------------------------

  /** The records of `vs` whose key is `k`, in input order. */
  function Occurrences(vs: seq<VersionRecord>, k: string): seq<VersionRecord> {
    if vs == [] then []
    else Occurrences(vs[..|vs| - 1], k) + (if Key(vs[|vs| - 1]) == k then [vs[|vs| - 1]] else [])
  }

  /** The merge of a group's records, in the order they were met. */
  function MergeAll(group: seq<VersionRecord>): VersionRecord
    requires |group| > 0
  {
    if |group| == 1 then group[0] else Merge(MergeAll(group[..|group| - 1]), group[|group| - 1])
  }

  /** Every game version named by some record of `group`; absent lists count as empty. */
  function GameVersionUnion(group: seq<VersionRecord>): set<string> {
    if group == [] then {}
    else GameVersionUnion(group[..|group| - 1]) + Elems(group[|group| - 1].gameVersions.GetOr([]))
  }

  /** Every loader named by some record of `group`; absent lists count as empty. */
  function LoaderUnion(group: seq<VersionRecord>): set<string> {
    if group == [] then {}
    else LoaderUnion(group[..|group| - 1]) + Elems(group[|group| - 1].loaders.GetOr([]))
  }

  /** Newest first: no record is older than a record behind it. */
  ghost predicate NewestFirst(s: seq<VersionRecord>) {
    forall i, j :: 0 <= i < j < |s| ==> !Less(DateKey(s[i]), DateKey(s[j]))
  }

  /** The records of `s` published at `d`, in order. */
  function DatedAt(s: seq<VersionRecord>, d: string): seq<VersionRecord> {
    if s == [] then [] else (if DateKey(s[0]) == d then [s[0]] else []) + DatedAt(s[1..], d)
  }

  ghost predicate DistinctKeys(s: seq<VersionRecord>) {
    forall i, j :: 0 <= i < j < |s| ==> Key(s[i]) != Key(s[j])
  }

  // ---------------------------------------------------------------------------
  // The sort
  // ---------------------------------------------------------------------------

  /** Where `InsertByDate` puts `x`: behind `r[..m]`, ahead of the strictly older `r[m..]`. */
  lemma {:induction false} InsertByDateSplit(r: seq<VersionRecord>, x: VersionRecord) returns (m: nat)
    ensures m <= |r|
    ensures InsertByDate(r, x) == r[..m] + [x] + r[m..]
    ensures forall i :: m <= i < |r| ==> Less(DateKey(r[i]), DateKey(x))
    ensures m > 0 ==> !Less(DateKey(r[m - 1]), DateKey(x))
  {
    if r == [] {
      m := 0;
    } else if !Less(DateKey(r[|r| - 1]), DateKey(x)) {
      m := |r|;
    } else {
      var init := r[..|r| - 1];
      m := InsertByDateSplit(init, x);
      assert init[..m] == r[..m];
      assert init[m..] + [r[|r| - 1]] == r[m..];
    }
  }

  lemma InsertByDateNewestFirst(r: seq<VersionRecord>, x: VersionRecord)
    requires NewestFirst(r)
    ensures NewestFirst(InsertByDate(r, x))
  {
    var m := InsertByDateSplit(r, x);
    var t := InsertByDate(r, x);
    assert forall k :: 0 <= k < m ==> t[k] == r[k];
    assert t[m] == x;
    assert forall k :: m < k < |t| ==> t[k] == r[k - 1];
    forall i, j | 0 <= i < j < |t|
      ensures !Less(DateKey(t[i]), DateKey(t[j]))
    {
      if i == m {
        LessAsymmetric(DateKey(t[j]), DateKey(x));
      } else if j == m && i < m - 1 {
        AtLeastTransitive(DateKey(r[i]), DateKey(r[m - 1]), DateKey(x));
      }
    }
  }

  lemma {:induction false} SortByDateNewestFirst(s: seq<VersionRecord>)
    ensures NewestFirst(SortByDate(s))
  {
    if s != [] {
      SortByDateNewestFirst(s[..|s| - 1]);
      InsertByDateNewestFirst(SortByDate(s[..|s| - 1]), s[|s| - 1]);
    }
  }

  lemma {:induction false} DatedAtConcat(a: seq<VersionRecord>, b: seq<VersionRecord>, d: string)
    ensures DatedAt(a + b, d) == DatedAt(a, d) + DatedAt(b, d)
  {
    if a == [] {
      assert a + b == b;
    } else {
      assert (a + b)[0] == a[0] && (a + b)[1..] == a[1..] + b;
      DatedAtConcat(a[1..], b, d);
    }
  }

  lemma {:induction false} DatedAtNone(s: seq<VersionRecord>, d: string)
    requires forall i :: 0 <= i < |s| ==> DateKey(s[i]) != d
    ensures DatedAt(s, d) == []
  {
    if s != [] {
      DatedAtNone(s[1..], d);
    }
  }

  /** Inserting `x` puts it behind every record of `r` that has `x`'s date. */
  lemma {:induction false} DatedAtInsert(front: seq<VersionRecord>, x: VersionRecord, back: seq<VersionRecord>, d: string)
    requires DateKey(x) == d ==> forall i :: 0 <= i < |back| ==> DateKey(back[i]) != d
    ensures DatedAt(front + [x] + back, d) == DatedAt(front + back, d) + DatedAt([x], d)
  {
    DatedAtConcat(front + [x], back, d);
    DatedAtConcat(front, [x], d);
    DatedAtConcat(front, back, d);
    if DateKey(x) == d {
      DatedAtNone(back, d);
    } else {
      assert DatedAt([x], d) == [] by {
        assert [x][1..] == [];
      }
    }
  }

  lemma {:induction false} InsertByDateStable(r: seq<VersionRecord>, x: VersionRecord, d: string)
    ensures DatedAt(InsertByDate(r, x), d) == DatedAt(r, d) + DatedAt([x], d)
  {
    var m := InsertByDateSplit(r, x);
    if DateKey(x) == d {
      forall i | m <= i < |r| ensures DateKey(r[i]) != d {
        LessIrreflexive(d);
      }
    }
    DatedAtInsert(r[..m], x, r[m..], d);
    assert r == r[..m] + r[m..];
  }

  /** The sort is stable: records with equal dates keep their relative order. */
  lemma {:induction false} SortByDateStable(s: seq<VersionRecord>, d: string)
    ensures DatedAt(SortByDate(s), d) == DatedAt(s, d)
  {
    if s != [] {
      var init, x := s[..|s| - 1], s[|s| - 1];
      SortByDateStable(init, d);
      InsertByDateStable(SortByDate(init), x, d);
      FrontAndLast(s);
      DatedAtConcat(init, [x], d);
    }
  }

  /** Sorting an already newest-first list changes nothing. */
  lemma {:induction false} SortByDateOfSorted(s: seq<VersionRecord>)
    requires NewestFirst(s)
    ensures SortByDate(s) == s
  {
    if s != [] {
      var init := s[..|s| - 1];
      SortByDateOfSorted(init);
      FrontAndLast(s);
    }
  }

  lemma {:induction false} SpliceKeys(r: seq<VersionRecord>, m: nat, x: VersionRecord)
    requires m <= |r|
    ensures forall k :: k in KeysOf(r[..m] + [x] + r[m..]) <==> k in KeysOf(r) || k == Key(x)
  {
    var t := r[..m] + [x] + r[m..];
    forall k ensures k in KeysOf(t) <==> k in KeysOf(r) || k == Key(x) {
      if k in KeysOf(t) {
        var i :| 0 <= i < |t| && KeysOf(t)[i] == k;
        if i < m {
          assert t[i] == r[i] && KeysOf(r)[i] == k;
        } else if i > m {
          assert t[i] == r[i - 1] && KeysOf(r)[i - 1] == k;
        }
      }
      if k in KeysOf(r) {
        var i :| 0 <= i < |r| && KeysOf(r)[i] == k;
        if i < m {
          assert t[i] == r[i] && KeysOf(t)[i] == k;
        } else {
          assert t[i + 1] == r[i] && KeysOf(t)[i + 1] == k;
        }
      }
      if k == Key(x) {
        assert t[m] == x && KeysOf(t)[m] == k;
      }
    }
  }

  lemma {:induction false} SpliceDistinct(r: seq<VersionRecord>, m: nat, x: VersionRecord)
    requires m <= |r|
    requires DistinctKeys(r)
    requires forall i :: 0 <= i < |r| ==> Key(r[i]) != Key(x)
    ensures DistinctKeys(r[..m] + [x] + r[m..])
  {
    var t := r[..m] + [x] + r[m..];
    forall i, j | 0 <= i < j < |t| ensures Key(t[i]) != Key(t[j]) {
      if j < m {
        assert t[i] == r[i] && t[j] == r[j];
      } else if i > m {
        assert t[i] == r[i - 1] && t[j] == r[j - 1];
      } else if i < m < j {
        assert t[i] == r[i] && t[j] == r[j - 1];
      } else if i == m {
        assert t[j] == r[j - 1];
      } else {
        assert t[i] == r[i];
      }
    }
  }

  /** Putting `x` anywhere into `r` adds it once to the multiset. */
  lemma SpliceMultiset<T>(r: seq<T>, m: nat, x: T)
    requires m <= |r|
    ensures multiset(r[..m] + [x] + r[m..]) == multiset(r) + multiset{x}
  {
    assert r == r[..m] + r[m..];
  }

  /** A non-empty list is its front followed by its last element. */
  lemma FrontAndLast<T>(s: seq<T>)
    requires s != []
    ensures s == s[..|s| - 1] + [s[|s| - 1]]
  {
  }

  lemma MultisetOfLast<T>(s: seq<T>)
    requires s != []
    ensures multiset(s) == multiset(s[..|s| - 1]) + multiset{s[|s| - 1]}
  {
    FrontAndLast(s);
  }

  /** The sort is a permutation: it keeps every record, as often as it occurs. */
  lemma {:induction false} SortByDatePermutation(s: seq<VersionRecord>)
    ensures multiset(SortByDate(s)) == multiset(s)
  {
    if s != [] {
      var init, x := s[..|s| - 1], s[|s| - 1];
      SortByDatePermutation(init);
      var r := SortByDate(init);
      var m := InsertByDateSplit(r, x);
      SpliceMultiset(r, m, x);
      MultisetOfLast(s);
    }
  }

  /** The sort neither loses a key nor adds one. */
  lemma {:induction false} SortByDateKeys(s: seq<VersionRecord>)
    ensures forall k :: k in KeysOf(SortByDate(s)) <==> k in KeysOf(s)
  {
    if s != [] {
      var init, x := s[..|s| - 1], s[|s| - 1];
      SortByDateKeys(init);
      var m := InsertByDateSplit(SortByDate(init), x);
      SpliceKeys(SortByDate(init), m, x);
      assert KeysOf(s) == KeysOf(init) + [Key(x)];
    }
  }

  /** The sort does not duplicate a key. */
  lemma {:induction false} SortByDateDistinct(s: seq<VersionRecord>)
    requires DistinctKeys(s)
    ensures DistinctKeys(SortByDate(s))
  {
    if s != [] {
      var init, x := s[..|s| - 1], s[|s| - 1];
      assert forall i :: 0 <= i < |init| ==> init[i] == s[i];
      SortByDateDistinct(init);
      SortByDateKeys(init);
      var r := SortByDate(init);
      forall i | 0 <= i < |r| ensures Key(r[i]) != Key(x) {
        assert KeysOf(r)[i] in KeysOf(r);
        var j :| 0 <= j < |init| && KeysOf(init)[j] == Key(r[i]);
        assert s[j] == init[j];
      }
      var m := InsertByDateSplit(r, x);
      SpliceDistinct(r, m, x);
    }
  }

  // ---------------------------------------------------------------------------
  // The grouping
  // ---------------------------------------------------------------------------

  lemma IndexOfKeyAppend(s: seq<VersionRecord>, v: VersionRecord, k: string)
    ensures IndexOfKey(s, k) < |s| ==> IndexOfKey(s + [v], k) == IndexOfKey(s, k)
    ensures IndexOfKey(s, k) == |s| && Key(v) == k ==> IndexOfKey(s + [v], k) == |s|
  {
    var t := s + [v];
    assert forall j :: 0 <= j < |s| ==> t[j] == s[j];
    assert Key(t[|s|]) == Key(v);
    var i := IndexOfKey(s, k);
    if i < |s| {
      assert Key(t[i]) == k;
    }
  }

  /** In a list with distinct keys, a record's key is first found at its own position. */
  lemma IndexOfKeyAt(s: seq<VersionRecord>, j: nat)
    requires DistinctKeys(s) && j < |s|
    ensures IndexOfKey(s, Key(s[j])) == j
  {
  }

  lemma IndexOfKeyFound(s: seq<VersionRecord>, k: string)
    ensures IndexOfKey(s, k) < |s| <==> k in KeysOf(s)
  {
    if k in KeysOf(s) {
      var j :| 0 <= j < |s| && KeysOf(s)[j] == k;
    }
  }

  lemma OccurrencesOfAbsent(vs: seq<VersionRecord>, k: string)
    requires k !in KeysOf(vs)
    ensures Occurrences(vs, k) == []
    decreases |vs|
  {
    if vs != [] {
      assert KeysOf(vs[..|vs| - 1]) == KeysOf(vs)[..|vs| - 1];
      OccurrencesOfAbsent(vs[..|vs| - 1], k);
    }
  }

  /** `Group(vs)` holds the distinct non-empty keys of `vs` and no other. */
  lemma {:induction false} GroupKeySet(vs: seq<VersionRecord>)
    ensures forall k :: k in KeysOf(Group(vs)) <==> k != "" && k in KeysOf(vs)
  {
    if vs != [] {
      var p, v := vs[..|vs| - 1], vs[|vs| - 1];
      FrontAndLast(vs);
      GroupKeySet(p);
      var g := Group(p);
      var k := Key(v);
      assert KeysOf(vs) == KeysOf(p) + [k];
      if k != "" {
        var idx := IndexOfKey(g, k);
        if idx == |g| {
          assert Group(vs) == g + [v];
          assert KeysOf(g + [v]) == KeysOf(g) + [k];
        } else {
          assert Group(vs) == g[idx := Merge(g[idx], v)];
          assert KeysOf(Group(vs)) == KeysOf(g);
        }
      }
    }
  }

  /**
   * `Group(vs)` holds one record per distinct non-empty key of `vs`, in the
   * order in which the keys first occur in `vs`.
   */
  lemma {:induction false} GroupKeys(vs: seq<VersionRecord>)
    ensures forall k :: k in KeysOf(Group(vs)) <==> k != "" && k in KeysOf(vs)
    ensures forall i, j :: 0 <= i < j < |Group(vs)| ==>
      IndexOfKey(vs, Key(Group(vs)[i])) < IndexOfKey(vs, Key(Group(vs)[j])) < |vs|
  {
    GroupKeySet(vs);
    if vs != [] {
      var p, v := vs[..|vs| - 1], vs[|vs| - 1];
      FrontAndLast(vs);
      GroupKeys(p);
      var g := Group(p);
      var k := Key(v);
      forall i | 0 <= i < |g|
        ensures IndexOfKey(vs, Key(g[i])) == IndexOfKey(p, Key(g[i])) < |p|
      {
        IndexOfKeyFound(p, Key(g[i]));
        IndexOfKeyAppend(p, v, Key(g[i]));
        assert Key(g[i]) in KeysOf(g);
      }
      var G := Group(vs);
      var appended := k != "" && IndexOfKey(g, k) == |g|;
      assert |G| == |g| + (if appended then 1 else 0);
      assert forall i :: 0 <= i < |g| ==> Key(G[i]) == Key(g[i]);
      if appended {
        IndexOfKeyFound(g, k);
        IndexOfKeyFound(p, k);
        IndexOfKeyAppend(p, v, k);
        assert G[|g|] == v;
      }
      forall i, j | 0 <= i < j < |G|
        ensures IndexOfKey(vs, Key(G[i])) < IndexOfKey(vs, Key(G[j])) < |vs|
      {
        if j < |g| {
          assert IndexOfKey(p, Key(g[i])) < IndexOfKey(p, Key(g[j]));
        }
      }
    }
  }

  lemma GroupDistinct(vs: seq<VersionRecord>)
    ensures DistinctKeys(Group(vs))
    ensures forall i :: 0 <= i < |Group(vs)| ==> Key(Group(vs)[i]) != ""
  {
    GroupKeys(vs);
    var g := Group(vs);
    forall i | 0 <= i < |g| ensures Key(g[i]) != "" {
      assert KeysOf(g)[i] == Key(g[i]);
    }
  }

  /** Records of `p + [v]` with key `k`: those of `p`, then `v` when it has key `k`. */
  lemma OccurrencesSnoc(p: seq<VersionRecord>, v: VersionRecord, k: string)
    ensures Occurrences(p + [v], k) == Occurrences(p, k) + (if Key(v) == k then [v] else [])
  {
    assert (p + [v])[..|p|] == p;
  }

  /** Each record of `Group(vs)` is the merge of all records of `vs` with its key. */
  lemma {:induction false} GroupMerges(vs: seq<VersionRecord>)
    ensures forall i :: 0 <= i < |Group(vs)| ==>
      |Occurrences(vs, Key(Group(vs)[i]))| > 0 && Group(vs)[i] == MergeAll(Occurrences(vs, Key(Group(vs)[i])))
  {
    if vs != [] {
      var p, v := vs[..|vs| - 1], vs[|vs| - 1];
      FrontAndLast(vs);
      GroupMerges(p);
      GroupDistinct(p);
      var g, G := Group(p), Group(vs);
      var k := Key(v);
      var idx := IndexOfKey(g, k);
      forall i | 0 <= i < |G|
        ensures |Occurrences(vs, Key(G[i]))| > 0 && G[i] == MergeAll(Occurrences(vs, Key(G[i])))
      {
        if i < |g| && (k == "" || i != idx) {
          assert G[i] == g[i];
          assert Key(g[i]) != k by {
            if k != "" && idx < |g| {
              assert Key(g[idx]) == k;
            }
          }
          OccurrencesSnoc(p, v, Key(g[i]));
          assert Occurrences(vs, Key(G[i])) == Occurrences(p, Key(g[i]));
        } else if idx == |g| {
          assert G == g + [v] && G[i] == v;
          IndexOfKeyFound(g, k);
          GroupKeys(p);
          OccurrencesOfAbsent(p, k);
          OccurrencesSnoc(p, v, k);
        } else {
          assert G == g[idx := Merge(g[idx], v)] && i == idx;
          var o := Occurrences(p, k);
          OccurrencesSnoc(p, v, k);
          assert Key(g[idx]) == k && |o| > 0;
          assert (o + [v])[..|o|] == o;
          assert MergeAll(o + [v]) == Merge(g[idx], v);
        }
      }
    }
  }

  /** Merging keeps every field of the group's first record except the lists and the date. */
  lemma {:induction false} MergeAllKeepsFirst(group: seq<VersionRecord>)
    requires |group| > 0
    ensures var m := MergeAll(group);
      && m.id == group[0].id && m.versionNumber == group[0].versionNumber
      && m.versionType == group[0].versionType && m.changelog == group[0].changelog
  {
    if |group| > 1 {
      MergeAllKeepsFirst(group[..|group| - 1]);
    }
  }

  lemma ElemsConcat(a: seq<string>, b: seq<string>)
    ensures Elems(a + b) == Elems(a) + Elems(b)
  {
  }

  /** A merged group carries the sorted union of its game-version and loader lists. */
  lemma {:induction false} MergeAllLists(group: seq<VersionRecord>)
    requires |group| > 1
    ensures var m := MergeAll(group);
      && m.gameVersions.Some? && StrictlySorted(m.gameVersions.value)
      && Elems(m.gameVersions.value) == GameVersionUnion(group)
      && m.loaders.Some? && StrictlySorted(m.loaders.value)
      && Elems(m.loaders.value) == LoaderUnion(group)
  {
    var init, v := group[..|group| - 1], group[|group| - 1];
    var prev := MergeAll(init);
    if |init| == 1 {
      assert GameVersionUnion(init) == Elems(prev.gameVersions.GetOr([]));
      assert LoaderUnion(init) == Elems(prev.loaders.GetOr([]));
    } else {
      MergeAllLists(init);
    }
    ElemsConcat(prev.gameVersions.GetOr([]), v.gameVersions.GetOr([]));
    ElemsConcat(prev.loaders.GetOr([]), v.loaders.GetOr([]));
  }

  /** A merged group carries the latest publication date of its records. */
  lemma {:induction false} MergeAllDate(group: seq<VersionRecord>)
    requires |group| > 0
    ensures forall i :: 0 <= i < |group| ==> !Less(DateKey(MergeAll(group)), DateKey(group[i]))
    ensures exists i :: 0 <= i < |group| && DateKey(MergeAll(group)) == DateKey(group[i])
  {
    if |group| == 1 {
      LessIrreflexive(DateKey(group[0]));
    } else {
      var init, v := group[..|group| - 1], group[|group| - 1];
      MergeAllDate(init);
      var prev, m := MergeAll(init), MergeAll(group);
      var j :| 0 <= j < |init| && DateKey(prev) == DateKey(init[j]);
      if Less(DateKey(prev), DateKey(v)) {
        assert DateKey(m) == DateKey(v);
        forall i | 0 <= i < |group| ensures !Less(DateKey(m), DateKey(group[i])) {
          if i < |group| - 1 {
            assert !Less(DateKey(prev), DateKey(init[i]));
            LessAsymmetric(DateKey(prev), DateKey(v));
            AtLeastTransitive(DateKey(v), DateKey(prev), DateKey(group[i]));
          } else {
            LessIrreflexive(DateKey(v));
          }
        }
        assert DateKey(m) == DateKey(group[|group| - 1]);
      } else {
        assert DateKey(m) == DateKey(prev);
        forall i | 0 <= i < |group| ensures !Less(DateKey(m), DateKey(group[i])) {
          if i < |group| - 1 {
            assert !Less(DateKey(prev), DateKey(init[i]));
          }
        }
        assert DateKey(m) == DateKey(group[j]);
      }
    }
  }

  /** A list with distinct non-empty keys is its own grouping. */
  lemma {:induction false} GroupOfDistinct(s: seq<VersionRecord>)
    requires DistinctKeys(s)
    requires forall i :: 0 <= i < |s| ==> Key(s[i]) != ""
    ensures Group(s) == s
  {
    if s != [] {
      var init, x := s[..|s| - 1], s[|s| - 1];
      assert forall i :: 0 <= i < |init| ==> init[i] == s[i];
      GroupOfDistinct(init);
      forall i | 0 <= i < |init| ensures Key(init[i]) != Key(x) {
        assert Key(s[i]) != Key(s[|s| - 1]);
      }
      assert IndexOfKey(init, Key(x)) == |init|;
      assert Group(s) == Absorb(init, x) == init + [x];
      FrontAndLast(s);
    }
  }

  // ---------------------------------------------------------------------------
  // What get_all_project_versions promises
  // ---------------------------------------------------------------------------

  /**
   * One record per distinct non-empty `version_number` of the input: records
   * without one are dropped, and no version appears twice. (An empty input
   * has no keys, so it yields an empty list.)
   */
  lemma ConsolidateKeys(vs: seq<VersionRecord>)
    ensures DistinctKeys(Consolidate(vs))
    ensures forall k :: k in KeysOf(Consolidate(vs)) <==> k != "" && k in KeysOf(vs)
  {
    GroupKeys(vs);
    GroupDistinct(vs);
    SortByDateKeys(Group(vs));
    SortByDateDistinct(Group(vs));
  }

  /**
   * The fields of each output record: a version met once is kept exactly as
   * received; a version met several times has the sorted union of the
   * game-version and loader lists, the latest publication date (absent
   * counting as ""), and every other field of its first occurrence.
   */
  lemma ConsolidateMerges(vs: seq<VersionRecord>, r: VersionRecord)
    requires r in Consolidate(vs)
    ensures var group := Occurrences(vs, Key(r));
      && |group| > 0
      && (|group| == 1 ==> r == group[0])
      && r.id == group[0].id && r.versionNumber == group[0].versionNumber
      && r.versionType == group[0].versionType && r.changelog == group[0].changelog
      && (|group| > 1 ==>
            && r.gameVersions.Some? && StrictlySorted(r.gameVersions.value)
            && Elems(r.gameVersions.value) == GameVersionUnion(group)
            && r.loaders.Some? && StrictlySorted(r.loaders.value)
            && Elems(r.loaders.value) == LoaderUnion(group))
      && (forall i :: 0 <= i < |group| ==> !Less(DateKey(r), DateKey(group[i])))
      && (exists i :: 0 <= i < |group| && DateKey(r) == DateKey(group[i]))
  {
    var g := Group(vs);
    assert r in multiset(g);
    GroupMerges(vs);
    var i :| 0 <= i < |g| && g[i] == r;
    var group := Occurrences(vs, Key(r));
    MergeAllKeepsFirst(group);
    if |group| > 1 {
      MergeAllLists(group);
    }
    MergeAllDate(group);
  }

  /**
   * The output is newest first, and among records with the same date the
   * order is that of `Group(vs)`, which `GroupKeys` shows to be the order of
   * first occurrence in the input.
   */
  lemma ConsolidateOrder(vs: seq<VersionRecord>)
    ensures NewestFirst(Consolidate(vs))
    ensures forall d :: DatedAt(Consolidate(vs), d) == DatedAt(Group(vs), d)
  {
    SortByDateNewestFirst(Group(vs));
    forall d ensures DatedAt(Consolidate(vs), d) == DatedAt(Group(vs), d) {
      SortByDateStable(Group(vs), d);
    }
  }

  /** Consolidating a consolidated list returns it unchanged. */
  lemma ConsolidateIdempotent(vs: seq<VersionRecord>)
    ensures Consolidate(Consolidate(vs)) == Consolidate(vs)
  {
    var out := Consolidate(vs);
    if out != [] {
      ConsolidateKeys(vs);
      ConsolidateOrder(vs);
      forall i | 0 <= i < |out| ensures Key(out[i]) != "" {
        assert KeysOf(out)[i] == Key(out[i]);
        assert KeysOf(out)[i] in KeysOf(out);
      }
      GroupOfDistinct(out);
      SortByDateOfSorted(out);
    }
  }

  // ---------------------------------------------------------------------------
  // The loop as written: a dictionary keyed by version number, whose keys
  // remember their insertion order, then an in-place sort.
  // ---------------------------------------------------------------------------

  /** The dictionary `dict` with key order `order` holds exactly the records `groups`. */
  ghost predicate Holds(dict: map<string, VersionRecord>, order: seq<string>, groups: seq<VersionRecord>) {
    && |order| == |groups|
    && (forall j :: 0 <= j < |order| ==> order[j] == Key(groups[j]) && order[j] in dict && dict[order[j]] == groups[j])
    && (forall k :: k in dict ==> k in order)
    && DistinctKeys(groups)
  }

  /** A step of the dictionary loop keeps the dictionary in step with `Absorb`. */
  lemma AbsorbHolds(dict: map<string, VersionRecord>, order: seq<string>, groups: seq<VersionRecord>, v: VersionRecord)
    requires Holds(dict, order, groups)
    ensures Key(v) == "" ==> Holds(dict, order, Absorb(groups, v))
    ensures Key(v) != "" && Key(v) !in dict ==> Holds(dict[Key(v) := v], order + [Key(v)], Absorb(groups, v))
    ensures Key(v) != "" && Key(v) in dict ==> Holds(dict[Key(v) := Merge(dict[Key(v)], v)], order, Absorb(groups, v))
  {
    var k := Key(v);
    if k != "" {
      if k !in dict {
        AbsorbHoldsNew(dict, order, groups, v);
      } else {
        var j :| 0 <= j < |order| && order[j] == k;
        AbsorbHoldsMerge(dict, order, groups, v, j);
      }
    }
  }

  /** A version not seen before is appended to the dictionary and to the groups. */
  lemma AbsorbHoldsNew(dict: map<string, VersionRecord>, order: seq<string>, groups: seq<VersionRecord>, v: VersionRecord)
    requires Holds(dict, order, groups)
    requires Key(v) != "" && Key(v) !in dict
    ensures Absorb(groups, v) == groups + [v]
    ensures Holds(dict[Key(v) := v], order + [Key(v)], groups + [v])
  {
    var k := Key(v);
    assert forall j :: 0 <= j < |groups| ==> Key(groups[j]) != k;
    var g, o := groups + [v], order + [k];
    assert forall j :: 0 <= j < |groups| ==> g[j] == groups[j] && o[j] == order[j];
  }

  /** A version seen before, at position `j`, is merged into its stored record. */
  lemma AbsorbHoldsMerge(dict: map<string, VersionRecord>, order: seq<string>, groups: seq<VersionRecord>,
                         v: VersionRecord, j: nat)
    requires Holds(dict, order, groups)
    requires Key(v) != "" && j < |order| && order[j] == Key(v)
    ensures Absorb(groups, v) == groups[j := Merge(groups[j], v)]
    ensures Holds(dict[Key(v) := Merge(dict[Key(v)], v)], order, groups[j := Merge(groups[j], v)])
  {
    IndexOfKeyAt(groups, j);
  }

  /**
   * `x` lands at position `j` when the record before `j` is not older than
   * `x` and every record from `j` on is strictly older.
   */
  lemma {:induction false} InsertByDateAt(p: seq<VersionRecord>, x: VersionRecord, j: nat)
    requires j <= |p|
    requires j > 0 ==> !Less(DateKey(p[j - 1]), DateKey(x))
    requires forall k :: j <= k < |p| ==> Less(DateKey(p[k]), DateKey(x))
    ensures InsertByDate(p, x) == p[..j] + [x] + p[j..]
    decreases |p|
  {
    if j == |p| {
      assert p[..j] == p && p[j..] == [];
    } else {
      var init := p[..|p| - 1];
      InsertByDateAt(init, x, j);
      assert init[..j] == p[..j];
      assert init[j..] + [p[|p| - 1]] == p[j..];
    }
  }

  /**
   * One pass of insertion sort: `a[i]` moves left past every strictly older
   * record, so `a[..i + 1]` becomes `InsertByDate(a[..i], a[i])`.
   */
  method InsertNewestFirst(a: array<VersionRecord>, i: nat)
    requires i < a.Length
    modifies a
    ensures a[..i + 1] == InsertByDate(old(a[..i]), old(a[i]))
    ensures a[i + 1..] == old(a[i + 1..])
  {
    ghost var p := a[..i];
    var x := a[i];
    var j := i;
    while j > 0 && Less(DateKey(a[j - 1]), DateKey(x))
      invariant 0 <= j <= i
      invariant forall k :: 0 <= k < j ==> a[k] == p[k]
      invariant forall k :: j < k <= i ==> a[k] == p[k - 1]
      invariant forall k :: j <= k < i ==> Less(DateKey(p[k]), DateKey(x))
      invariant a[i + 1..] == old(a[i + 1..])
    {
      a[j] := a[j - 1];
      j := j - 1;
    }
    a[j] := x;
    InsertByDateAt(p, x, j);
    SpliceFromPointwise(a[..i + 1], p, x, j);
  }

  /** A list that agrees with `p[..j] + [x] + p[j..]` position by position is that list. */
  lemma SpliceFromPointwise(s: seq<VersionRecord>, p: seq<VersionRecord>, x: VersionRecord, j: nat)
    requires j <= |p| && |s| == |p| + 1
    requires forall k :: 0 <= k < j ==> s[k] == p[k]
    requires s[j] == x
    requires forall k :: j < k < |s| ==> s[k] == p[k - 1]
    ensures s == p[..j] + [x] + p[j..]
  {
    var r := p[..j] + [x] + p[j..];
    forall k | 0 <= k < |s| ensures s[k] == r[k] {
      if k < j {
        assert r[k] == p[k];
      } else if k > j {
        assert r[k] == p[k - 1];
      }
    }
  }

  /** `unique_versions.sort(key=..., reverse=True)` on a list held in an array. */
  method SortNewestFirst(a: array<VersionRecord>)
    modifies a
    ensures a[..] == SortByDate(old(a[..]))
  {
    ghost var orig := a[..];
    var i := 0;
    while i < a.Length
      invariant 0 <= i <= a.Length
      invariant a[..i] == SortByDate(orig[..i])
      invariant a[i..] == orig[i..]
    {
      ghost var before := a[..];
      assert a[i] == orig[i] by {
        assert a[i..][0] == orig[i..][0];
      }
      assert before[i + 1..] == orig[i + 1..] by {
        assert before[i + 1..] == a[i..][1..];
      }
      InsertNewestFirst(a, i);
      assert SortByDate(orig[..i + 1]) == InsertByDate(SortByDate(orig[..i]), orig[i]) by {
        assert orig[..i + 1][..i] == orig[..i];
      }
      i := i + 1;
    }
    assert orig[..a.Length] == orig;
  }

  /** `get_all_project_versions` once the list has been fetched (api.py:139-179). */
  method ConsolidateVersions(versions: seq<VersionRecord>) returns (result: seq<VersionRecord>)
    ensures result == Consolidate(versions)
    ensures versions == [] ==> result == []
  {
    if |versions| == 0 {
      return [];
    }
    var dict: map<string, VersionRecord> := map[];
    var order: seq<string> := [];
    var i := 0;
    while i < |versions|
      invariant 0 <= i <= |versions|
      invariant Holds(dict, order, Group(versions[..i]))
    {
      var v := versions[i];
      var k := Key(v);
      assert versions[..i + 1][..i] == versions[..i];
      AbsorbHolds(dict, order, Group(versions[..i]), v);
      if k != "" {
        if k !in dict {
          dict := dict[k := v];
          order := order + [k];
        } else {
          dict := dict[k := Merge(dict[k], v)];
        }
      }
      i := i + 1;
    }
    assert versions[..i] == versions;
    var unique := seq(|order|, j requires 0 <= j < |order| && order[j] in dict => dict[order[j]]);
    var a := new VersionRecord[|unique|](j requires 0 <= j < |unique| => unique[j]);
    assert a[..] == Group(versions);
    SortNewestFirst(a);
    result := a[..];
  }
}
