/** Byte strings and the comparator interface that every ordered structure is parameterised by. */
module Order {

  type byte = b: int | 0 <= b < 256
  type bytes = seq<byte>

  datatype Option<+T> = None | Some(value: T)

  /** Concatenation is associative. */
  lemma Regroup<T>(a: seq<T>, b: seq<T>, c: seq<T>)
    ensures a + (b + c) == (a + b) + c
  {
  }

  /** Cutting inside the middle of three parts. */
  lemma CutMiddle<T>(p: seq<T>, m: seq<T>, rest: seq<T>, i: nat, j: nat)
    requires i <= j <= |m|
    ensures (p + m + rest)[|p| + i..|p| + j] == m[i..j]
  {
  }

  datatype Ordering = Less | Equal | Greater

  /** A user comparator; `TotalOrder` is what the trait's documentation asks of an implementation. */
  type Cmp = (bytes, bytes) -> Ordering

  ghost predicate TotalOrder(cmp: Cmp) {
    && (forall a, b :: cmp(a, b) == Equal <==> a == b)
    && (forall a, b :: cmp(a, b) == Less <==> cmp(b, a) == Greater)
    && (forall a, b, c :: cmp(a, b) == Less && cmp(b, c) == Less ==> cmp(a, c) == Less)
  }
}
