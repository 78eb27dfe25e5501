/** What the unit code does with vectors of ids: sort, dedup, filter, and removal of one id. */
module IdVectors {
  import Splitting

  import opened Units
  import opened Digraph

  // ---------- the order of ids: names, compared character by character ----------

  predicate NameLe(a: string, b: string) {
    a == [] || (b != [] && (a[0] < b[0] || (a[0] == b[0] && NameLe(a[1..], b[1..]))))
  }

  lemma {:induction false} NameLeTotal(a: string, b: string)
    ensures NameLe(a, b) || NameLe(b, a)
    ensures NameLe(a, b) && NameLe(b, a) ==> a == b
  {
    if a != [] && b != [] {
      NameLeTotal(a[1..], b[1..]);
      if a[0] == b[0] && a[1..] == b[1..] {
        assert a == [a[0]] + a[1..] && b == [b[0]] + b[1..];
      }
    }
  }

  lemma {:induction false} NameLeTransitive(a: string, b: string, c: string)
    requires NameLe(a, b) && NameLe(b, c)
    ensures NameLe(a, c)
  {
    if a != [] && b != [] && c != [] && a[0] == b[0] == c[0] {
      NameLeTransitive(a[1..], b[1..], c[1..]);
    }
  }

  ghost predicate SortedByName(s: seq<UnitId>) {
    forall i, j :: 0 <= i < j < |s| ==> NameLe(s[i].name, s[j].name)
  }

  // ---------- Vec::sort (stable) and Vec::dedup (adjacent repeats) ----------

  function InsertSorted(x: UnitId, s: seq<UnitId>): (r: seq<UnitId>)
    ensures forall y :: y in r <==> y == x || y in s
  {
    if s == [] || NameLe(x.name, s[0].name) then [x] + s else [s[0]] + InsertSorted(x, s[1..])
  }

  function SortIds(s: seq<UnitId>): (r: seq<UnitId>)
    ensures forall y :: y in r <==> y in s
  {
    if s == [] then [] else InsertSorted(s[0], SortIds(s[1..]))
  }

  function DropRepeats(s: seq<UnitId>): (r: seq<UnitId>)
    ensures forall y :: y in r <==> y in s
    ensures s != [] ==> r != [] && r[0] == s[0]
  {
    if |s| <= 1 then s
    else if s[0] == s[1] then DropRepeats(s[1..])
    else [s[0]] + DropRepeats(s[1..])
  }

  function Dedup(s: seq<UnitId>): (r: seq<UnitId>)
    ensures forall y :: y in r <==> y in s
  {
    DropRepeats(SortIds(s))
  }

  lemma {:induction false} InsertKeepsSorted(x: UnitId, s: seq<UnitId>)
    requires SortedByName(s)
    ensures SortedByName(InsertSorted(x, s))
  {
    if s == [] {
    } else if NameLe(x.name, s[0].name) {
      forall j | 0 <= j < |s| ensures NameLe(x.name, s[j].name) {
        if j > 0 {
          NameLeTransitive(x.name, s[0].name, s[j].name);
        }
      }
    } else {
      NameLeTotal(x.name, s[0].name);
      InsertKeepsSorted(x, s[1..]);
      var rest := InsertSorted(x, s[1..]);
      forall j | 0 <= j < |rest| ensures NameLe(s[0].name, rest[j].name) {
        assert rest[j] in rest;
        if rest[j] != x {
          var k :| 0 <= k < |s[1..]| && s[1..][k] == rest[j];
          assert s[k + 1] == rest[j];
        }
      }
    }
  }

  lemma {:induction false} SortSorts(s: seq<UnitId>)
    ensures SortedByName(SortIds(s))
  {
    if s != [] {
      SortSorts(s[1..]);
      InsertKeepsSorted(s[0], SortIds(s[1..]));
    }
  }

  /** Ids that share a name are the same id. */
  ghost predicate NamesUniqueIn(s: seq<UnitId>) {
    forall a, b :: a in s && b in s && a.name == b.name ==> a == b
  }

  lemma {:induction false} DropRepeatsOfSorted(s: seq<UnitId>)
    requires SortedByName(s) && NamesUniqueIn(s)
    ensures SortedByName(DropRepeats(s)) && NoRepeat(DropRepeats(s))
  {
    if |s| > 1 {
      DropRepeatsOfSorted(s[1..]);
      if s[0] != s[1] {
        HeadIsSmaller(s);
        PrependSmaller(s[0], DropRepeats(s[1..]));
      }
    }
  }

  lemma PrependSmaller(x: UnitId, s: seq<UnitId>)
    requires SortedByName(s) && NoRepeat(s)
    requires forall y :: y in s ==> NameLe(x.name, y.name) && y != x
    ensures SortedByName([x] + s) && NoRepeat([x] + s)
  {
    hide NameLe;
  }

  lemma HeadIsSmaller(s: seq<UnitId>)
    requires SortedByName(s) && NamesUniqueIn(s) && |s| > 1 && s[0] != s[1]
    ensures forall x :: x in s[1..] ==> NameLe(s[0].name, x.name) && x != s[0]
  {
    forall x | x in s[1..] ensures NameLe(s[0].name, x.name) && x != s[0] {
      var k :| 1 <= k < |s| && s[k] == x;
      NameLeTotal(s[0].name, s[1].name);
    }
  }

  lemma DedupHasNoRepeat(s: seq<UnitId>)
    requires NamesUniqueIn(s)
    ensures SortedByName(Dedup(s)) && NoRepeat(Dedup(s))
  {
    SortSorts(s);
    DropRepeatsOfSorted(SortIds(s));
  }

  /** Sorting and deduplicating a vector that already is sorted and free of repeats changes nothing. */
  lemma {:induction false} DedupFixed(s: seq<UnitId>)
    requires SortedByName(s) && NoRepeat(s)
    ensures SortIds(s) == s && Dedup(s) == s
  {
    if s != [] {
      DedupFixed(s[1..]);
      assert s == [s[0]] + s[1..];
      if |s| > 1 {
        assert NameLe(s[0].name, s[1].name) && s[0] != s[1];
      }
    }
  }

  // ---------- filtering ----------

  function Filter(s: seq<UnitId>, keep: set<UnitId>): (r: seq<UnitId>)
    ensures forall y :: y in r <==> y in s && y in keep
    ensures |r| <= |s|
  {
    if s == [] then []
    else if s[0] in keep then [s[0]] + Filter(s[1..], keep)
    else Filter(s[1..], keep)
  }

  lemma {:induction false} FilterKeepsOrder(s: seq<UnitId>, keep: set<UnitId>)
    requires SortedByName(s) && NoRepeat(s)
    ensures SortedByName(Filter(s, keep)) && NoRepeat(Filter(s, keep))
  {
    if s != [] {
      FilterKeepsOrder(s[1..], keep);
      PrependSmaller(s[0], Filter(s[1..], keep));
    }
  }

  lemma {:induction false} FilterAll(s: seq<UnitId>, keep: set<UnitId>)
    requires forall x :: x in s ==> x in keep
    ensures Filter(s, keep) == s
  {
    if s != [] {
      FilterAll(s[1..], keep);
    }
  }

  /** `s` without the ids in `gone`. */
  function FilterOut(s: seq<UnitId>, gone: set<UnitId>): (r: seq<UnitId>)
    ensures forall y :: y in r <==> y in s && y !in gone
  {
    if s == [] then []
    else if s[0] in gone then FilterOut(s[1..], gone)
    else [s[0]] + FilterOut(s[1..], gone)
  }

  lemma {:induction false} FilterOutTwice(s: seq<UnitId>, a: set<UnitId>, b: set<UnitId>)
    ensures FilterOut(FilterOut(s, a), b) == FilterOut(s, a + b)
  {
    if s != [] {
      FilterOutTwice(s[1..], a, b);
    }
  }

  lemma {:induction false} FilterOutOne(s: seq<UnitId>, id: UnitId)
    ensures Without(s, id) == FilterOut(s, {id})
  {
    if s != [] {
      FilterOutOne(s[1..], id);
    }
  }

  /** `s` without any occurrence of `id`. */
  function Without(s: seq<UnitId>, id: UnitId): (r: seq<UnitId>)
    ensures forall y :: y in r <==> y in s && y != id
  {
    if s == [] then []
    else if s[0] == id then Without(s[1..], id)
    else [s[0]] + Without(s[1..], id)
  }

  lemma {:induction false} WithoutKeepsOrder(s: seq<UnitId>, id: UnitId)
    requires SortedByName(s) && NoRepeat(s)
    ensures SortedByName(Without(s, id)) && NoRepeat(Without(s, id))
  {
    if s != [] {
      WithoutKeepsOrder(s[1..], id);
      PrependSmaller(s[0], Without(s[1..], id));
    }
  }

  lemma {:induction false} WithoutCut(a: seq<UnitId>, b: seq<UnitId>, id: UnitId)
    ensures Without(a + [id] + b, id) == Without(a + b, id)
  {
    if a == [] {
      assert a + [id] + b == [id] + b && a + b == b;
    } else {
      WithoutCut(a[1..], b, id);
      assert (a + [id] + b)[1..] == a[1..] + [id] + b;
      assert (a + b)[1..] == a[1..] + b;
    }
  }

  lemma {:induction false} WithoutFixed(s: seq<UnitId>, id: UnitId)
    requires id !in s
    ensures Without(s, id) == s
  {
    if s != [] {
      WithoutFixed(s[1..], id);
    }
  }

  /** remove_from_vec: cut out positions until the id no longer occurs. */
  method RemoveFromVec(ids: seq<UnitId>, id: UnitId) returns (r: seq<UnitId>)
    ensures r == Without(ids, id)
  {
    r := ids;
    while id in r
      invariant Without(r, id) == Without(ids, id)
      decreases |r|
    {
      var idx := Splitting.Position(r, id);
      CutAt(r, idx, id);
      r := r[..idx] + r[idx + 1..];
    }
    WithoutFixed(r, id);
  }

  lemma CutAt(s: seq<UnitId>, i: nat, id: UnitId)
    requires i < |s| && s[i] == id
    ensures Without(s[..i] + s[i + 1..], id) == Without(s, id)
  {
    WithoutCut(s[..i], s[i + 1..], id);
    assert s == s[..i] + [id] + s[i + 1..];
  }

  /** The keys of a map collected into a vector, in any order. */
  method SetToSeq(s: set<UnitId>) returns (r: seq<UnitId>)
    ensures forall x :: x in r <==> x in s
    ensures NoRepeat(r)
  {
    r := [];
    var rest := s;
    while rest != {}
      invariant rest <= s && NoRepeat(r)
      invariant forall x :: x in r <==> x in s && x !in rest
    {
      var x :| x in rest;
      r := r + [x];
      rest := rest - {x};
    }
  }
}
