/** Error outcomes shared by the object-extraction operators.
    The Python operators signal these with `assert`, `KeyError`, `ValueError` or
    `IndexError`; here each becomes an `Err` value so that callers see the failure. */
module Common {

  datatype Error =
    | ShapeMismatch          // label and raw shapes differ
    | AxisTagMismatch        // label and raw axis tags differ
    | TimeExtentNotOne       // a `t` axis of extent other than 1
    | ChannelExtentNotOne    // a `c` axis of extent other than 1
    | NotXyz                 // the axes other than t/c are not exactly x, y, z
    | KeyMissing(key: char)  // lookup or `del` of an absent axis letter
    | RankMismatch           // a roi or request whose rank is not the slot's rank
    | NotOneCell             // a roi that does not address exactly one cell
    | UnorderedRoi           // a request box with start > stop on some axis
    | RoiOutOfBounds         // a request box reaching past the input shape
    | NoSections             // numpy.split into zero sections
    | UnequalSplit           // numpy.split of an axis the section count does not divide
    | EmptyCell              // `.flat[0]` of an empty array
    | ChannelOutOfRange      // a channel index past the per-channel list
    | Unreachable            // "Shouldn't get here."

  datatype Result<T> = Ok(value: T) | Err(error: Error) {
    predicate IsFailure() { Err? }

    function PropagateFailure<U>(): Result<U>
      requires Err?
    {
      Err(error)
    }

    function Extract(): T
      requires Ok?
    {
      value
    }
  }

  /** A box roi: the half-open hyper-rectangle [start, stop). */
  datatype Box = Box(start: seq<nat>, stop: seq<nat>)

  predicate Ordered(b: Box) {
    |b.start| == |b.stop| && forall i :: 0 <= i < |b.start| ==> b.start[i] <= b.stop[i]
  }

  /** `p` is a coordinate inside the half-open box. */
  predicate InBox(p: seq<int>, b: Box) {
    |p| == |b.start| == |b.stop| &&
    forall i :: 0 <= i < |p| ==> b.start[i] <= p[i] < b.stop[i]
  }

  /** `range(lo, hi)` */
  function Range(lo: nat, hi: nat): (r: seq<nat>)
    ensures |r| == if lo <= hi then hi - lo else 0
    ensures forall i :: 0 <= i < |r| ==> r[i] == lo + i
    ensures forall x :: x in r <==> lo <= x < hi
    decreases hi - lo
  {
    if hi <= lo then [] else [lo] + Range(lo + 1, hi)
  }

  /** `[0] * n` */
  function Zeros(n: nat): (r: seq<nat>)
    ensures |r| == n && forall i :: 0 <= i < n ==> r[i] == 0
  {
    seq(n, i => 0)
  }
}
