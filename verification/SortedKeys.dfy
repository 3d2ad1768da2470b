/** Sorted keys without repeats, in the order of JavaScript's default `sort`. */
module SortedKeys {
  import opened Digraph

  /** Lexicographic order of the code units, strict. */
  predicate Less(a: string, b: string) {
    b != "" && (a == "" || a[0] < b[0] || (a[0] == b[0] && Less(a[1..], b[1..])))
  }

  lemma {:induction false} LessTotal(a: string, b: string)
    ensures Less(a, b) || a == b || Less(b, a)
    ensures !(Less(a, b) && Less(b, a)) && !Less(a, a)
  {
    if a != "" && b != "" {
      LessTotal(a[1..], b[1..]);
      assert a == [a[0]] + a[1..] && b == [b[0]] + b[1..];
    }
    if a != "" { LessTotal(a[1..], a[1..]); }
  }

  lemma LessTransitive(a: string, b: string, c: string)
    requires Less(a, b) && Less(b, c)
    ensures Less(a, c)
  {
  }

  /** `b` goes on where `a` ends, or has the greater code unit where they first differ. */
  ghost predicate Below(a: string, b: string, n: int) {
    0 <= n <= |a| && n < |b| && a[..n] == b[..n] && (n == |a| || a[n] < b[n])
  }

  lemma {:induction false} LessExactly(a: string, b: string)
    ensures Less(a, b) <==> exists n :: Below(a, b, n)
  {
    if a == "" {
      assert b != "" ==> Below(a, b, 0);
    } else if b != "" {
      LessExactly(a[1..], b[1..]);
      if a[0] < b[0] {
        assert Below(a, b, 0);
      } else if a[0] == b[0] {
        if n :| Below(a[1..], b[1..], n) {
          BelowShifts(a, b, n);
          assert Below(a, b, n + 1);
        }
        if n :| Below(a, b, n) {
          BelowShifts(a, b, n - 1);
          assert Below(a[1..], b[1..], n - 1);
        }
      } else {
        forall n
          ensures !Below(a, b, n)
        {
          assert 0 < n <= |a| && n < |b| ==> a[..n][0] != b[..n][0];
        }
      }
    }
  }

  lemma BelowShifts(a: string, b: string, n: nat)
    requires a != "" && b != "" && a[0] == b[0]
    ensures Below(a[1..], b[1..], n) <==> Below(a, b, n + 1)
  {
    if n <= |a| - 1 && n < |b| - 1 {
      assert a[..n + 1] == [a[0]] + a[1..][..n] && b[..n + 1] == [b[0]] + b[1..][..n];
      assert a[1..][..n] == a[..n + 1][1..] && b[1..][..n] == b[..n + 1][1..];
    }
  }

  ghost predicate Rising(keys: seq<string>) {
    forall i, j | 0 <= i < j < |keys| :: Less(keys[i], keys[j])
  }

  function InsertKey(k: string, sorted: seq<string>): seq<string> {
    if sorted == [] || Less(k, sorted[0]) then [k] + sorted
    else if k == sorted[0] then sorted
    else [sorted[0]] + InsertKey(k, sorted[1..])
  }

  function SortKeys(keys: seq<string>): seq<string> {
    if keys == [] then [] else InsertKey(keys[0], SortKeys(keys[1..]))
  }

  /** A key below all others goes in front. */
  lemma FrontRises(k: string, rest: seq<string>)
    requires Rising(rest) && forall j | 0 <= j < |rest| :: Less(k, rest[j])
    ensures Rising([k] + rest)
  {
  }

  lemma {:induction false} InsertRises(k: string, sorted: seq<string>)
    requires Rising(sorted)
    ensures Rising(InsertKey(k, sorted)) && Elems(InsertKey(k, sorted)) == Elems(sorted) + {k}
  {
    if sorted != [] {
      assert sorted == [sorted[0]] + sorted[1..];
      if Less(k, sorted[0]) {
        forall j | 0 <= j < |sorted|
          ensures Less(k, sorted[j])
        {
          if j > 0 { LessTransitive(k, sorted[0], sorted[j]); }
        }
        FrontRises(k, sorted);
        ElemsCons(k, sorted);
      } else if k != sorted[0] {
        InsertRises(k, sorted[1..]);
        LessTotal(k, sorted[0]);
        var rest := InsertKey(k, sorted[1..]);
        forall j | 0 <= j < |rest|
          ensures Less(sorted[0], rest[j])
        {
          assert rest[j] in Elems(rest);
        }
        FrontRises(sorted[0], rest);
        ElemsCons(sorted[0], rest);
        ElemsCons(sorted[0], sorted[1..]);
      } else {
        assert k in Elems(sorted);
      }
    }
  }

  lemma ElemsCons(k: string, rest: seq<string>)
    ensures Elems([k] + rest) == {k} + Elems(rest)
  {
  }

  /** Sorting keeps exactly the keys, once each and in order. */
  lemma {:induction false} SortRises(keys: seq<string>)
    ensures Rising(SortKeys(keys)) && Elems(SortKeys(keys)) == Elems(keys)
  {
    if keys != [] {
      assert keys == [keys[0]] + keys[1..];
      SortRises(keys[1..]);
      InsertRises(keys[0], SortKeys(keys[1..]));
    }
  }

  /** A rising list is determined by its members. */
  lemma {:induction false} RisingUnique(a: seq<string>, b: seq<string>)
    requires Rising(a) && Rising(b) && Elems(a) == Elems(b)
    ensures a == b
  {
    assert b == [] || b[0] in Elems(b);
    if a != [] {
      assert a[0] in Elems(a);
      HeadsAgree(a, b);
      assert forall k | k in a[1..] :: Less(a[0], k);
      assert forall k | k in b[1..] :: Less(b[0], k);
      LessTotal(a[0], a[0]);
      assert Elems(a[1..]) == Elems(a) - {a[0]};
      assert Elems(b[1..]) == Elems(b) - {a[0]};
      RisingUnique(a[1..], b[1..]);
      assert a == [a[0]] + a[1..] && b == [b[0]] + b[1..];
    }
  }

  lemma HeadsAgree(a: seq<string>, b: seq<string>)
    requires Rising(a) && Rising(b) && Elems(a) == Elems(b) && a != []
    ensures b != [] && a[0] == b[0]
  {
    assert a[0] in Elems(b);
    assert b[0] in Elems(a);
    var i :| 0 <= i < |b| && b[i] == a[0];
    var j :| 0 <= j < |a| && a[j] == b[0];
    LessTotal(a[0], b[0]);
  }

  lemma RisingDistinct(a: seq<string>)
    requires Rising(a)
    ensures Distinct(a)
  {
    forall i, j | 0 <= i < j < |a|
      ensures a[i] != a[j]
    {
      LessTotal(a[i], a[j]);
    }
  }

  /** The order in which the keys are listed does not matter. */
  lemma SortSame(a: seq<string>, b: seq<string>)
    requires Elems(a) == Elems(b)
    ensures SortKeys(a) == SortKeys(b)
  {
    SortRises(a);
    SortRises(b);
    RisingUnique(SortKeys(a), SortKeys(b));
  }
}
