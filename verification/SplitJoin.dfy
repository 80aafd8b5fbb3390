/** `split` on a one-element separator and `join`, as JavaScript has them. */
module SplitJoin {

  function Split<T(==)>(t: seq<T>, sep: T): (parts: seq<seq<T>>)
    ensures parts != []
  {
    if t == [] then [[]]
    else
      var rest := Split(t[1..], sep);
      if t[0] == sep then [[]] + rest else [[t[0]] + rest[0]] + rest[1..]
  }

  function Join<T>(parts: seq<seq<T>>, sep: T): seq<T>
    requires parts != []
  {
    if |parts| == 1 then parts[0] else parts[0] + [sep] + Join(parts[1..], sep)
  }

  lemma {:induction false} JoinSplit<T>(t: seq<T>, sep: T)
    ensures Join(Split(t, sep), sep) == t
  {
    if t != [] {
      var rest := Split(t[1..], sep);
      JoinSplit(t[1..], sep);
      assert Split(t, sep)[1..] == if t[0] == sep then rest else rest[1..];
    }
  }

  lemma {:induction false} SplitIsFree<T>(t: seq<T>, sep: T)
    ensures forall part | part in Split(t, sep) :: sep !in part
  {
    if t != [] {
      SplitIsFree(t[1..], sep);
      var rest := Split(t[1..], sep);
      forall part | part in Split(t, sep) ensures sep !in part {
        assert part in rest || part == [] || part == [t[0]] + rest[0];
        assert rest[0] in rest;
      }
    }
  }

  lemma {:induction false} SplitFree<T>(part: seq<T>, sep: T)
    requires sep !in part
    ensures Split(part, sep) == [part]
  {
    if part != [] {
      SplitFree(part[1..], sep);
      assert [part[0]] + part[1..] == part;
    }
  }

  lemma {:induction false} SplitAfter<T>(part: seq<T>, sep: T, rest: seq<T>)
    requires sep !in part
    ensures Split(part + [sep] + rest, sep) == [part] + Split(rest, sep)
  {
    var t := part + [sep] + rest;
    if part == [] {
      assert t[1..] == rest;
    } else {
      SplitAfter(part[1..], sep, rest);
      assert t[1..] == part[1..] + [sep] + rest;
      assert [part[0]] + part[1..] == part;
    }
  }

  /** Splitting undoes joining parts that do not hold the separator. */
  lemma {:induction false} SplitOfJoin<T>(parts: seq<seq<T>>, sep: T)
    requires parts != [] && forall part | part in parts :: sep !in part
    ensures Split(Join(parts, sep), sep) == parts
  {
    if |parts| == 1 {
      SplitFree(parts[0], sep);
    } else {
      SplitOfJoin(parts[1..], sep);
      SplitAfter(parts[0], sep, Join(parts[1..], sep));
      assert [parts[0]] + parts[1..] == parts;
    }
  }

  lemma {:induction false} JoinHolds<T>(parts: seq<seq<T>>, sep: T, x: T)
    requires parts != [] && x in Join(parts, sep)
    ensures x == sep || exists part | part in parts :: x in part
  {
    if |parts| > 1 && x !in parts[0] && x != sep {
      JoinHolds(parts[1..], sep, x);
    }
  }

  lemma {:induction false} JoinTwo<T>(a: seq<seq<T>>, b: seq<seq<T>>, sep: T)
    requires a != [] && b != []
    ensures Join(a + b, sep) == Join(a, sep) + [sep] + Join(b, sep)
  {
    if |a| == 1 {
      assert (a + b)[1..] == b;
    } else {
      JoinTwo(a[1..], b, sep);
      assert (a + b)[1..] == a[1..] + b;
    }
  }
}
