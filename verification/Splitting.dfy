/** Splitting a sequence at every occurrence of a separator, and what remains after the last one. */
module Splitting {

  function Split<T(==)>(s: seq<T>, c: T): (parts: seq<seq<T>>)
    ensures |parts| > 0
  {
    if s == [] then [[]]
    else if s[0] == c then [[]] + Split(s[1..], c)
    else var parts := Split(s[1..], c); [[s[0]] + parts[0]] + parts[1..]
  }

  /** The first position of the separator. */
  function Position<T(==)>(s: seq<T>, c: T): (pos: nat)
    requires c in s
    ensures pos < |s| && s[pos] == c && c !in s[..pos]
  {
    if s[0] == c then 0 else
      assert s == [s[0]] + s[1..];
      var pos := Position(s[1..], c);
      assert s[..pos + 1] == [s[0]] + s[1..][..pos];
      pos + 1
  }

  function Last<T>(parts: seq<seq<T>>): seq<T>
    requires |parts| > 0
  {
    parts[|parts| - 1]
  }

  /** The parts that are ended by a separator. */
  function Complete<T(==)>(s: seq<T>, c: T): seq<seq<T>> {
    Split(s, c)[..|Split(s, c)| - 1]
  }

  /** What comes after the last separator. */
  function Remainder<T(==)>(s: seq<T>, c: T): seq<T> {
    Last(Split(s, c))
  }

  function Ended<T>(parts: seq<seq<T>>, c: T): seq<T> {
    if parts == [] then [] else parts[0] + [c] + Ended(parts[1..], c)
  }

  ghost predicate NoneContains<T>(parts: seq<seq<T>>, c: T) {
    forall i :: 0 <= i < |parts| ==> c !in parts[i]
  }

  /** One separator, found at its first position, cuts off the first part. */
  lemma {:induction false} SplitFirst<T>(s: seq<T>, c: T, pos: nat)
    requires pos < |s| && s[pos] == c && c !in s[..pos]
    ensures Split(s, c) == [s[..pos]] + Split(s[pos + 1..], c)
  {
    if pos > 0 {
      assert s[0] in s[..pos] && s[1..][..pos - 1] == s[..pos][1..];
      SplitFirst(s[1..], c, pos - 1);
      assert s[1..][pos - 1 + 1..] == s[pos + 1..];
      assert [s[0]] + s[1..][..pos - 1] == s[..pos];
    } else {
      assert s[..pos] == [];
    }
  }

  lemma {:induction false} SplitNone<T>(s: seq<T>, c: T)
    requires c !in s
    ensures Split(s, c) == [s]
  {
    if s != [] {
      assert s[0] in s && forall x :: x in s[1..] ==> x in s;
      SplitNone(s[1..], c);
      assert [s[0]] + s[1..] == s;
    }
  }

  function Put<T>(x: T, parts: seq<seq<T>>): seq<seq<T>>
    requires |parts| > 0
  {
    [[x] + parts[0]] + parts[1..]
  }

  lemma SplitOfCons<T>(x: T, s: seq<T>, c: T)
    ensures Split([x] + s, c) == if x == c then [[]] + Split(s, c) else Put(x, Split(s, c))
  {
    assert ([x] + s)[1..] == s;
  }

  lemma CutOfCons<T>(x: T, s: seq<T>, c: T)
    ensures Complete([x] + s, c) == if x == c then [[]] + Complete(s, c) else if Complete(s, c) == [] then [] else Put(x, Complete(s, c))
    ensures Remainder([x] + s, c) == if x != c && Complete(s, c) == [] then [x] + Remainder(s, c) else Remainder(s, c)
  {
    SplitOfCons(x, s, c);
    hide Split;
  }

  lemma CutIsSplit<T>(s: seq<T>, c: T)
    ensures Split(s, c) == Complete(s, c) + [Remainder(s, c)]
  {
  }

  lemma PutInConcat<T>(x: T, front: seq<seq<T>>, back: seq<seq<T>>)
    requires |front| > 0
    ensures Put(x, front + back) == Put(x, front) + back
  {
    assert (front + back)[1..] == front[1..] + back;
  }

  lemma SplitOfConcatStep<T>(x: T, s: seq<T>, b: seq<T>, c: T)
    requires Split(s + b, c) == Complete(s, c) + Split(Remainder(s, c) + b, c)
    ensures Split([x] + (s + b), c) == Complete([x] + s, c) + Split(Remainder([x] + s, c) + b, c)
  {
    SplitOfCons(x, s + b, c);
    CutOfCons(x, s, c);
    var back := Split(Remainder(s, c) + b, c);
    hide Split;
    hide Complete;
    hide Remainder;
    if x == c {
      assert [[]] + (Complete(s, c) + back) == [[]] + Complete(s, c) + back;
    } else if Complete(s, c) == [] {
      assert [x] + Remainder(s, c) + b == [x] + (Remainder(s, c) + b);
      SplitOfCons(x, Remainder(s, c) + b, c);
      assert Complete(s, c) + back == back;
    } else {
      PutInConcat(x, Complete(s, c), back);
    }
  }

  /** Splitting what is left together with more input gives what splitting everything at once gives. */
  lemma {:induction false} SplitOfConcat<T>(a: seq<T>, b: seq<T>, c: T)
    ensures Split(a + b, c) == Complete(a, c) + Split(Remainder(a, c) + b, c)
  {
    if a == [] {
      assert a + b == b && Remainder(a, c) + b == b && Complete(a, c) == [];
    } else {
      hide Split;
      hide Complete;
      hide Remainder;
      SplitOfConcat(a[1..], b, c);
      assert a == [a[0]] + a[1..] && a + b == [a[0]] + (a[1..] + b);
      SplitOfConcatStep(a[0], a[1..], b, c);
    }
  }

  lemma CompleteOfConcat<T>(a: seq<T>, b: seq<T>, c: T)
    ensures Complete(a + b, c) == Complete(a, c) + Complete(Remainder(a, c) + b, c)
    ensures Remainder(a + b, c) == Remainder(Remainder(a, c) + b, c)
  {
    SplitOfConcat(a, b, c);
  }

  /** Nothing is lost and nothing is left to split. */
  lemma {:induction false} SplitIsFaithful<T>(s: seq<T>, c: T)
    ensures Ended(Complete(s, c), c) + Remainder(s, c) == s
    ensures NoneContains(Complete(s, c), c) && c !in Remainder(s, c)
  {
    if s != [] {
      SplitIsFaithful(s[1..], c);
      hide Split;
      hide Complete;
      hide Remainder;
      assert s == [s[0]] + s[1..];
      CutOfCons(s[0], s[1..], c);
      EndedOfCut(s[0], Complete(s[1..], c), Remainder(s[1..], c), c);
    }
  }

  lemma EndedOfCut<T>(x: T, front: seq<seq<T>>, back: seq<T>, c: T)
    ensures x == c ==> Ended([[]] + front, c) + back == [x] + (Ended(front, c) + back)
    ensures x != c && front == [] ==> Ended(front, c) + ([x] + back) == [x] + (Ended(front, c) + back)
    ensures x != c && front != [] ==> Ended(Put(x, front), c) + back == [x] + (Ended(front, c) + back)
  {
    if x == c {
      assert ([[]] + front)[1..] == front;
      assert [c] + Ended(front, c) + back == [c] + (Ended(front, c) + back);
    } else if front != [] {
      assert Put(x, front)[1..] == front[1..];
      assert [x] + (front[0] + [c] + Ended(front[1..], c)) == Ended(Put(x, front), c);
    }
  }

  /** And there is no other way to cut the input into separator-free parts. */
  lemma {:induction false} SplitIsUnique<T>(parts: seq<seq<T>>, rest: seq<T>, c: T)
    requires NoneContains(parts, c) && c !in rest
    ensures Split(Ended(parts, c) + rest, c) == parts + [rest]
  {
    if parts == [] {
      assert Ended(parts, c) + rest == rest;
      SplitNone(rest, c);
    } else {
      var s := Ended(parts, c) + rest;
      var pos := |parts[0]|;
      assert s[..pos] == parts[0] && s[pos + 1..] == Ended(parts[1..], c) + rest;
      SplitFirst(s, c, pos);
      SplitIsUnique(parts[1..], rest, c);
      assert [parts[0]] + (parts[1..] + [rest]) == parts + [rest];
    }
  }
}
