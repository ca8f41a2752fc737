/** Values that may be absent, the case folding the source applies to names, and sequences of sequences. */
module Wrappers {
  datatype Option<+T> = None | Some(value: T) {
    function GetOr(default: T): T {
      match this
      case None => default
      case Some(v) => v
    }
  }
}

/** ASCII lower-casing, the source's `str.lower()` on configuration text. */
module Text {
  function LowerChar(c: char): char {
    if 'A' <= c <= 'Z' then (c as int + 32) as char else c
  }

  function Lower(s: string): string {
    seq(|s|, i requires 0 <= i < |s| => LowerChar(s[i]))
  }

  /** The same letter, one of them a capital. */
  ghost predicate SameLetter(a: char, b: char) {
    ('A' <= a <= 'Z' && b as int == a as int + 32) || ('A' <= b <= 'Z' && a as int == b as int + 32)
  }

  /** Texts fold to the same exactly when they differ in the case of letters alone. */
  lemma FoldsAlikeExactlyWhen(s: string, t: string)
    ensures Lower(s) == Lower(t) <==>
              |s| == |t| && forall i | 0 <= i < |s| :: s[i] == t[i] || SameLetter(s[i], t[i])
  {
    if Lower(s) == Lower(t) {
      assert |s| == |Lower(s)| == |t|;
      forall i | 0 <= i < |s| ensures s[i] == t[i] || SameLetter(s[i], t[i]) {
        assert Lower(s)[i] == LowerChar(s[i]) && Lower(t)[i] == LowerChar(t[i]);
      }
    }
  }
}

module Sequences {
  function MaxOf(lines: seq<int>): (m: int)
    ensures forall i | 0 <= i < |lines| :: lines[i] <= m
    ensures if lines == [] then m == 0 else m in lines
  {
    if lines == [] then 0
    else if |lines| == 1 then lines[0]
    else
      var rest := MaxOf(lines[1..]);
      if lines[0] >= rest then lines[0] else rest
  }

  function Flatten<T>(parts: seq<seq<T>>): seq<T> {
    if parts == [] then [] else Flatten(parts[..|parts| - 1]) + parts[|parts| - 1]
  }

  /** Where part i starts inside the flattened sequence. */
  function Offset<T>(parts: seq<seq<T>>, i: nat): nat
    requires i <= |parts|
  {
    |Flatten(parts[..i])|
  }

  lemma {:induction false} FlattenAt<T>(parts: seq<seq<T>>, i: nat, k: nat)
    requires i < |parts| && k < |parts[i]|
    ensures Offset(parts, i) + k < |Flatten(parts)|
    ensures Flatten(parts)[Offset(parts, i) + k] == parts[i][k]
    ensures Offset(parts, i) + |parts[i]| == Offset(parts, i + 1) <= |Flatten(parts)|
  {
    var n := |parts| - 1;
    assert parts[..i + 1][..i] == parts[..i];
    if i < n {
      FlattenAt(parts[..n], i, k);
      assert parts[..n][..i] == parts[..i];
      assert parts[..n][..i + 1] == parts[..i + 1];
    } else {
      assert parts[..i + 1] == parts;
    }
  }

  /** Every index of the flattened sequence belongs to one part. */
  lemma {:induction false} FlattenOwner<T>(parts: seq<seq<T>>, n: nat) returns (i: nat, k: nat)
    requires n < |Flatten(parts)|
    ensures i < |parts| && k < |parts[i]| && n == Offset(parts, i) + k
  {
    var last := |parts| - 1;
    if n < |Flatten(parts[..last])| {
      i, k := FlattenOwner(parts[..last], n);
      assert parts[..last][..i] == parts[..i];
    } else {
      i, k := last, n - |Flatten(parts[..last])|;
    }
  }

  lemma {:induction false} OffsetsGrow<T>(parts: seq<seq<T>>, i: nat, j: nat)
    requires i <= j <= |parts|
    ensures Offset(parts, i) <= Offset(parts, j)
  {
    if i < j {
      OffsetsGrow(parts, i, j - 1);
      assert parts[..j][..j - 1] == parts[..j - 1];
    }
  }
}

/** Counting: the numbers of an interval, the parts of a set. */
module Intervals {
  predicate Within(a: int, lo: int, hi: int) {
    lo <= a < hi
  }

  function Interval(lo: int, hi: int): set<int> {
    set a | lo <= a < hi && Within(a, lo, hi)
  }

  lemma {:induction false} IntervalSize(lo: int, hi: int)
    requires lo <= hi
    ensures |Interval(lo, hi)| == hi - lo
    decreases hi - lo
  {
    if lo < hi {
      IntervalSize(lo, hi - 1);
      assert Interval(lo, hi) == Interval(lo, hi - 1) + {hi - 1};
    }
  }

  lemma SubsetSize<T>(a: set<T>, b: set<T>)
    requires a <= b
    ensures |a| <= |b|
  {
    assert b == a + (b - a);
  }
}
