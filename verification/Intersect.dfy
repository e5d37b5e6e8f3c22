/** The ordered-set intersection function: two parties' sorted hash lists, matched by a merge. */
module Intersect {
  import opened Order
  import opened Comparators

  // ----- input

  /** `a` may stand before `b`; equal items may repeat. */
  predicate MayPrecede(asc: bool, a: bytes, b: bytes) {
    if asc then BytesCmp(b, a) != Less else BytesCmp(b, a) != Greater
  }

  ghost predicate Ordered(asc: bool, xs: seq<bytes>) {
    forall i, j {:trigger MayPrecede(asc, xs[i], xs[j])} :: 0 <= i < j < |xs| ==> MayPrecede(asc, xs[i], xs[j])
  }

  /** A line's value, if it decodes. */
  type Line = Option<bytes>

  ghost predicate Decodes(lines: seq<Line>, xs: seq<bytes>) {
    |xs| == |lines| && forall i :: 0 <= i < |lines| ==> lines[i] == Some(xs[i])
  }

  lemma PrecedeIsTransitive(asc: bool, a: bytes, b: bytes, c: bytes)
    requires MayPrecede(asc, a, b) && MayPrecede(asc, b, c)
    ensures MayPrecede(asc, a, c)
  {
    DefaultOrderIsTotal();
    hide BytesCmp;
  }

  lemma OrderedAppend(asc: bool, xs: seq<bytes>, x: bytes)
    requires Ordered(asc, xs) && (xs != [] ==> MayPrecede(asc, xs[|xs| - 1], x))
    ensures Ordered(asc, xs + [x])
  {
    var all, n := xs + [x], |xs| - 1;
    forall i, j | 0 <= i < j < |all| ensures MayPrecede(asc, all[i], all[j]) {
      if j == |xs| && i < n {
        PrecedeIsTransitive(asc, xs[i], xs[n], x);
      }
    }
  }

  /** Accepts exactly the inputs whose lines all decode and stand in order. */
  method ParseInput(lines: seq<Line>, asc: bool) returns (r: Option<seq<bytes>>)
    ensures r.Some? ==> Decodes(lines, r.value) && Ordered(asc, r.value)
    ensures r.None? ==> !exists xs :: Decodes(lines, xs) && Ordered(asc, xs)
  {
    hide MayPrecede;
    var samples: seq<bytes> := [];
    for i := 0 to |lines|
      invariant Decodes(lines[..i], samples) && Ordered(asc, samples)
    {
      if lines[i].None? {
        return None;
      }
      var result := lines[i].value;
      if i > 0 && !MayPrecede(asc, samples[i - 1], result) {
        forall xs | Decodes(lines, xs) ensures !Ordered(asc, xs) {
          assert lines[..i][i - 1] == lines[i - 1];
          assert xs[i - 1] == samples[i - 1] && xs[i] == result;
        }
        return None;
      }
      OrderedAppend(asc, samples, result);
      samples := samples + [result];
    }
    assert lines[..|lines|] == lines;
    r := Some(samples);
  }

  // ----- merge

  /** The items whose mark is set. */
  ghost function Marked(xs: seq<bytes>, marks: seq<bool>): multiset<bytes>
    requires |xs| == |marks|
  {
    if xs == [] then multiset{}
    else
      var n := |xs| - 1;
      Marked(xs[..n], marks[..n]) + if marks[n] then multiset{xs[n]} else multiset{}
  }

  lemma MarkedOneMore(xs: seq<bytes>, marks: seq<bool>, i: nat)
    requires i < |xs| && i < |marks|
    ensures Marked(xs[..i + 1], marks[..i + 1])
         == Marked(xs[..i], marks[..i]) + if marks[i] then multiset{xs[i]} else multiset{}
  {
    assert xs[..i + 1][..i] == xs[..i] && marks[..i + 1][..i] == marks[..i];
  }

  lemma {:induction false} NoMoreMarks(xs: seq<bytes>, marks: seq<bool>, i: nat)
    requires |xs| == |marks| && i <= |xs| && forall k :: i <= k < |xs| ==> !marks[k]
    ensures Marked(xs, marks) == Marked(xs[..i], marks[..i])
    decreases |xs| - i
  {
    if i < |xs| {
      NoMoreMarks(xs, marks, i + 1);
      MarkedOneMore(xs, marks, i);
    } else {
      assert xs[..i] == xs && marks[..i] == marks;
    }
  }

  /** The items at and after `i`. */
  ghost function Rest(xs: seq<bytes>, i: nat): multiset<bytes>
    requires i <= |xs|
  {
    multiset(xs[i..])
  }

  lemma RestStep(xs: seq<bytes>, i: nat)
    requires i < |xs|
    ensures Rest(xs, i) == Rest(xs, i + 1) + multiset{xs[i]}
  {
    assert xs[i..] == [xs[i]] + xs[i + 1..];
  }

  /** An item strictly before the next of the other list is not in the rest of that list. */
  lemma NotInRest(asc: bool, xs: seq<bytes>, i: nat, x: bytes)
    requires Ordered(asc, xs) && i < |xs| && BytesCmp(x, xs[i]) == if asc then Less else Greater
    ensures x !in Rest(xs, i)
  {
    EqualIsSame(x, xs[i]);
    hide BytesCmp;
    forall k | i <= k < |xs| ensures xs[k] != x {
      if k > i {
        assert MayPrecede(asc, xs[i], xs[k]);
      }
    }
  }

  /** `x` comes strictly before `y` in the order of the lists. */
  predicate GoesFirst(asc: bool, x: bytes, y: bytes) {
    BytesCmp(x, y) == if asc then Less else Greater
  }

  /**
    Progress of the merge: the marked items of both sides are the same, and together with what the
    rests have in common they make up the intersection.
   */
  ghost predicate Merged(xs: seq<bytes>, ys: seq<bytes>, a: seq<bool>, b: seq<bool>, i: nat, j: nat) {
    && |a| == |xs| && |b| == |ys| && i <= |xs| && j <= |ys|
    && (forall k :: i <= k < |xs| ==> !a[k])
    && (forall k :: j <= k < |ys| ==> !b[k])
    && Marked(xs[..i], a[..i]) == Marked(ys[..j], b[..j])
    && Marked(xs[..i], a[..i]) + Rest(xs, i) * Rest(ys, j) == multiset(xs) * multiset(ys)
  }

  lemma MergeStarts(xs: seq<bytes>, ys: seq<bytes>, a: seq<bool>, b: seq<bool>)
    requires |a| == |xs| && |b| == |ys| && (forall k :: 0 <= k < |a| ==> !a[k]) && forall k :: 0 <= k < |b| ==> !b[k]
    ensures Merged(xs, ys, a, b, 0, 0)
  {
    assert xs[0..] == xs && ys[0..] == ys;
  }

  lemma MergeMatches(xs: seq<bytes>, ys: seq<bytes>, a: seq<bool>, b: seq<bool>, i: nat, j: nat)
    requires Merged(xs, ys, a, b, i, j) && i < |xs| && j < |ys| && xs[i] == ys[j]
    ensures Merged(xs, ys, a[i := true], b[j := true], i + 1, j + 1)
  {
    var a', b' := a[i := true], b[j := true];
    RestStep(xs, i);
    RestStep(ys, j);
    MarkedOneMore(xs, a', i);
    MarkedOneMore(ys, b', j);
    hide Rest, Marked;
    assert a'[..i] == a[..i] && b'[..j] == b[..j];
    assert Rest(xs, i) * Rest(ys, j) == Rest(xs, i + 1) * Rest(ys, j + 1) + multiset{xs[i]};
  }

  lemma MergeSkipsFirst(xs: seq<bytes>, ys: seq<bytes>, a: seq<bool>, b: seq<bool>, i: nat, j: nat, asc: bool)
    requires Merged(xs, ys, a, b, i, j) && i < |xs| && j < |ys| && Ordered(asc, ys) && GoesFirst(asc, xs[i], ys[j])
    ensures Merged(xs, ys, a, b, i + 1, j)
  {
    RestStep(xs, i);
    NotInRest(asc, ys, j, xs[i]);
    MarkedOneMore(xs, a, i);
    hide Rest, Marked, BytesCmp, Ordered;
    assert Rest(xs, i) * Rest(ys, j) == Rest(xs, i + 1) * Rest(ys, j);
  }

  lemma MergeSkipsSecond(xs: seq<bytes>, ys: seq<bytes>, a: seq<bool>, b: seq<bool>, i: nat, j: nat, asc: bool)
    requires Merged(xs, ys, a, b, i, j) && i < |xs| && j < |ys| && Ordered(asc, xs) && GoesFirst(asc, ys[j], xs[i])
    ensures Merged(xs, ys, a, b, i, j + 1)
  {
    RestStep(ys, j);
    NotInRest(asc, xs, i, ys[j]);
    MarkedOneMore(ys, b, j);
    hide Rest, Marked, BytesCmp, Ordered;
    assert Rest(xs, i) * Rest(ys, j) == Rest(xs, i) * Rest(ys, j + 1);
  }

  lemma MergeEnds(xs: seq<bytes>, ys: seq<bytes>, a: seq<bool>, b: seq<bool>, i: nat, j: nat)
    requires Merged(xs, ys, a, b, i, j) && (i == |xs| || j == |ys|)
    ensures Marked(xs, a) == Marked(ys, b) == multiset(xs) * multiset(ys)
  {
    NoMoreMarks(xs, a, i);
    NoMoreMarks(ys, b, j);
    hide Marked;
    assert Rest(xs, i) * Rest(ys, j) == multiset{};
  }

  // ----- which of equal items

  /** Of equal items, the first ones are marked. */
  ghost predicate FirstsMarked(xs: seq<bytes>, marks: seq<bool>)
    requires |xs| == |marks|
  {
    forall p, q :: 0 <= p < q < |xs| && xs[p] == xs[q] && marks[q] ==> marks[p]
  }

  /** Progress on one side: an item passed without a mark has no partner in the rest of the other list. */
  ghost predicate Passed(xs: seq<bytes>, a: seq<bool>, i: nat, ys: seq<bytes>, j: nat) {
    && |a| == |xs| && i <= |xs| && j <= |ys| && FirstsMarked(xs, a)
    && (forall k :: i <= k < |xs| ==> !a[k])
    && (forall p :: 0 <= p < i && !a[p] ==> xs[p] !in Rest(ys, j))
  }

  lemma PassedMatch(xs: seq<bytes>, a: seq<bool>, i: nat, ys: seq<bytes>, j: nat)
    requires Passed(xs, a, i, ys, j) && i < |xs| && j < |ys| && xs[i] == ys[j]
    ensures Passed(xs, a[i := true], i + 1, ys, j + 1)
  {
    RestStep(ys, j);
    hide Rest;
  }

  lemma PassedOwn(xs: seq<bytes>, a: seq<bool>, i: nat, ys: seq<bytes>, j: nat, asc: bool)
    requires Passed(xs, a, i, ys, j) && i < |xs| && j < |ys| && Ordered(asc, ys) && GoesFirst(asc, xs[i], ys[j])
    ensures Passed(xs, a, i + 1, ys, j)
  {
    NotInRest(asc, ys, j, xs[i]);
    hide Rest, Ordered;
  }

  lemma PassedOther(xs: seq<bytes>, a: seq<bool>, i: nat, ys: seq<bytes>, j: nat)
    requires Passed(xs, a, i, ys, j) && j < |ys|
    ensures Passed(xs, a, i, ys, j + 1)
  {
    RestStep(ys, j);
    hide Rest;
  }

  /** The merge as a whole has come to `i` and `j`. */
  ghost predicate Progress(xs: seq<bytes>, ys: seq<bytes>, a: seq<bool>, b: seq<bool>, i: nat, j: nat) {
    Merged(xs, ys, a, b, i, j) && Passed(xs, a, i, ys, j) && Passed(ys, b, j, xs, i)
  }

  lemma ProgressStarts(xs: seq<bytes>, ys: seq<bytes>, a: seq<bool>, b: seq<bool>)
    requires |a| == |xs| && |b| == |ys| && (forall k :: 0 <= k < |a| ==> !a[k]) && forall k :: 0 <= k < |b| ==> !b[k]
    ensures Progress(xs, ys, a, b, 0, 0)
  {
    MergeStarts(xs, ys, a, b);
  }

  lemma ProgressMatches(xs: seq<bytes>, ys: seq<bytes>, a: seq<bool>, b: seq<bool>, i: nat, j: nat)
    requires Progress(xs, ys, a, b, i, j) && i < |a| == |xs| && j < |b| == |ys| && xs[i] == ys[j]
    ensures Progress(xs, ys, a[i := true], b[j := true], i + 1, j + 1)
  {
    MergeMatches(xs, ys, a, b, i, j);
    PassedMatch(xs, a, i, ys, j);
    PassedMatch(ys, b, j, xs, i);
  }

  lemma WhichFirst(asc: bool, x: bytes, y: bytes)
    ensures BytesCmp(x, y) == Equal ==> x == y
    ensures BytesCmp(x, y) == Less ==> if asc then GoesFirst(asc, x, y) else GoesFirst(asc, y, x)
    ensures BytesCmp(x, y) == Greater ==> if asc then GoesFirst(asc, y, x) else GoesFirst(asc, x, y)
  {
    EqualIsSame(x, y);
    LessIsGreater(x, y);
    LessIsGreater(y, x);
    hide BytesCmp;
  }

  /** One step of the merge, by how the next items compare. */
  lemma ProgressStep(xs: seq<bytes>, ys: seq<bytes>, a: seq<bool>, b: seq<bool>, i: nat, j: nat, asc: bool)
    requires Progress(xs, ys, a, b, i, j) && Ordered(asc, xs) && Ordered(asc, ys)
    requires i < |a| == |xs| && j < |b| == |ys|
    ensures match BytesCmp(xs[i], ys[j])
      case Equal => Progress(xs, ys, a[i := true], b[j := true], i + 1, j + 1)
      case Less => if asc then Progress(xs, ys, a, b, i + 1, j) else Progress(xs, ys, a, b, i, j + 1)
      case Greater => if asc then Progress(xs, ys, a, b, i, j + 1) else Progress(xs, ys, a, b, i + 1, j)
  {
    hide Merged, Passed, Ordered, GoesFirst, BytesCmp;
    WhichFirst(asc, xs[i], ys[j]);
    if BytesCmp(xs[i], ys[j]) == Equal {
      ProgressMatches(xs, ys, a, b, i, j);
    } else if asc == (BytesCmp(xs[i], ys[j]) == Less) {
      MergeSkipsFirst(xs, ys, a, b, i, j, asc);
      PassedOwn(xs, a, i, ys, j, asc);
      PassedOther(ys, b, j, xs, i);
    } else {
      MergeSkipsSecond(xs, ys, a, b, i, j, asc);
      PassedOwn(ys, b, j, xs, i, asc);
      PassedOther(xs, a, i, ys, j);
    }
  }

  lemma ProgressEnds(xs: seq<bytes>, ys: seq<bytes>, a: seq<bool>, b: seq<bool>, i: nat, j: nat)
    requires Progress(xs, ys, a, b, i, j) && (i == |xs| || j == |ys|)
    ensures |a| == |xs| && |b| == |ys|
    ensures Marked(xs, a) == Marked(ys, b) == multiset(xs) * multiset(ys)
    ensures FirstsMarked(xs, a) && FirstsMarked(ys, b)
  {
    MergeEnds(xs, ys, a, b, i, j);
  }

  /** Compares the next items: marks both if they are equal, and passes those that come first. */
  method CompareNext(input1: seq<bytes>, input2: seq<bytes>, asc: bool, res1: array<bool>, res2: array<bool>, i: nat,
                     j: nat)
    returns (i': nat, j': nat)
    requires res1 != res2 && Ordered(asc, input1) && Ordered(asc, input2)
    requires i < |input1| == res1.Length && j < |input2| == res2.Length
    requires Progress(input1, input2, res1[..], res2[..], i, j)
    modifies res1, res2
    ensures i <= i' <= |input1| && j <= j' <= |input2| && i + j < i' + j'
    ensures Progress(input1, input2, res1[..], res2[..], i', j')
  {
    ghost var was1, was2 := res1[..], res2[..];
    ProgressStep(input1, input2, was1, was2, i, j, asc);
    hide Ordered, Progress, BytesCmp;
    i', j' := i, j;
    match BytesCmp(input1[i], input2[j]) {
      case Equal =>
        res1[i] := true;
        res2[j] := true;
        assert res1[..] == was1[i := true] && res2[..] == was2[j := true];
        i', j' := i + 1, j + 1;
      case Less =>
        if asc {
          i' := i + 1;
        } else {
          j' := j + 1;
        }
      case Greater =>
        if asc {
          j' := j + 1;
        } else {
          i' := i + 1;
        }
    }
  }

  /** Marks in both lists exactly their multiset intersection, and of equal items the first ones. */
  method IntersectOrdered(input1: seq<bytes>, input2: seq<bytes>, asc: bool)
    returns (res1: array<bool>, res2: array<bool>)
    requires Ordered(asc, input1) && Ordered(asc, input2)
    ensures fresh(res1) && fresh(res2) && res1.Length == |input1| && res2.Length == |input2|
    ensures Marked(input1, res1[..]) == Marked(input2, res2[..]) == multiset(input1) * multiset(input2)
    ensures FirstsMarked(input1, res1[..]) && FirstsMarked(input2, res2[..])
  {
    res1 := new bool[|input1|](_ => false);
    res2 := new bool[|input2|](_ => false);
    var i, j := 0, 0;
    ProgressStarts(input1, input2, res1[..], res2[..]);
    hide Ordered, Progress, Marked, FirstsMarked;
    while i < |input1| && j < |input2|
      invariant i <= |input1| && j <= |input2| && Progress(input1, input2, res1[..], res2[..], i, j)
      decreases |input1| - i + |input2| - j
    {
      i, j := CompareNext(input1, input2, asc, res1, res2, i, j);
    }
    ProgressEnds(input1, input2, res1[..], res2[..], i, j);
  }

  lemma CountIsSize(xs: seq<bytes>, marks: seq<bool>, i: nat)
    requires |xs| == |marks| && i < |xs|
    ensures |Marked(xs[..i + 1], marks[..i + 1])| == |Marked(xs[..i], marks[..i])| + if marks[i] then 1 else 0
  {
    MarkedOneMore(xs, marks, i);
  }

  datatype Outcome = InvalidOrder | InvalidInput | Done(marks1: seq<bool>, marks2: seq<bool>, common: nat)

  /** What the function reports for two inputs. */
  ghost predicate Reports(lines1: seq<Line>, lines2: seq<Line>, asc: bool, r: Outcome) {
    && !r.InvalidOrder?
    && (r.InvalidInput? <==> !(exists xs, ys :: Acceptable(lines1, lines2, asc, xs, ys)))
    && forall xs, ys :: r.Done? && Acceptable(lines1, lines2, asc, xs, ys) ==>
         && |r.marks1| == |xs| && |r.marks2| == |ys|
         && Marked(xs, r.marks1) == Marked(ys, r.marks2) == multiset(xs) * multiset(ys)
         && FirstsMarked(xs, r.marks1) && FirstsMarked(ys, r.marks2)
         && r.common == |multiset(xs) * multiset(ys)|
  }

  ghost predicate Acceptable(lines1: seq<Line>, lines2: seq<Line>, asc: bool, xs: seq<bytes>, ys: seq<bytes>) {
    Decodes(lines1, xs) && Decodes(lines2, ys) && Ordered(asc, xs) && Ordered(asc, ys)
  }

  lemma DecodesOnce(lines: seq<Line>, xs: seq<bytes>, ys: seq<bytes>)
    requires Decodes(lines, xs) && Decodes(lines, ys)
    ensures xs == ys
  {
  }

  /** The whole function, with its arguments already read. */
  method Run(order: string, lines1: seq<Line>, lines2: seq<Line>) returns (r: Outcome)
    ensures if order == "ascending" then Reports(lines1, lines2, true, r)
            else if order == "desending" then Reports(lines1, lines2, false, r)
            else r == InvalidOrder
  {
    if order != "ascending" && order != "desending" {
      return InvalidOrder;
    }
    hide Decodes, Ordered, Marked, FirstsMarked;
    var asc := order == "ascending";
    var vec1 := ParseInput(lines1, asc);
    if vec1.None? {
      return InvalidInput;
    }
    var vec2 := ParseInput(lines2, asc);
    if vec2.None? {
      return InvalidInput;
    }
    var result1, result2 := IntersectOrdered(vec1.value, vec2.value, asc);
    var common := CountMarks(vec1.value, result1[..]);
    r := Done(result1[..], result2[..], common);
    assert Acceptable(lines1, lines2, asc, vec1.value, vec2.value);
    forall xs, ys | Acceptable(lines1, lines2, asc, xs, ys) ensures xs == vec1.value && ys == vec2.value {
      DecodesOnce(lines1, xs, vec1.value);
      DecodesOnce(lines2, ys, vec2.value);
    }
  }

  method CountMarks(ghost xs: seq<bytes>, marks: seq<bool>) returns (n: nat)
    requires |xs| == |marks|
    ensures n == |Marked(xs, marks)|
  {
    n := 0;
    for i := 0 to |marks|
      invariant n == |Marked(xs[..i], marks[..i])|
    {
      CountIsSize(xs, marks, i);
      if marks[i] {
        n := n + 1;
      }
    }
    assert xs[..|marks|] == xs && marks[..|marks|] == marks;
  }
}
