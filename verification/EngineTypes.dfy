/** Records that flow through the touch pipeline, and the arithmetic the stages share. */
module EngineTypes {

  datatype Option<+T> = None | Some(value: T)

  datatype ContactState = StateDown | StateMove | StateUp

  datatype LifeFlag = LifeMapped | LifeNew | LifeLiftOff | LifeEdge | LifeDebounced | LifeAlwaysMatch

  /** `NoEvent` is the zero a contact starts with; the others are the report codes. */
  datatype ReportEvent = NoEvent | ReportIdle | ReportDown | ReportMove | ReportUp

  datatype Contact = Contact(
    id: int, x: real, y: real, state: ContactState,
    area: int, signalSum: int, sizeMm: real, isEdge: bool,
    isReported: bool, prevIndex: int, debugFlags: int,
    lifeFlags: set<LifeFlag>, reportFlags: int, reportEvent: ReportEvent)

  /** A default-constructed contact. */
  const BLANK := Contact(0, 0.0, 0.0, StateDown, 0, 0, 0.0, false, true, -1, 0, {}, 0, NoEvent)

  const MAX_TOUCHES: nat := 20

  function Max(a: int, b: int): int { if a < b then b else a }

  function Min(a: int, b: int): int { if b < a then b else a }

  function MaxR(a: real, b: real): real { if a < b then b else a }

  function Abs(a: int): int { if a < 0 then -a else a }

  /** Division as the source's language does it: the quotient is truncated toward zero. */
  function TruncDiv(a: int, b: int): int
    requires b != 0
  {
    if a >= 0 then (if b > 0 then a / b else -(a / -b))
    else (if b > 0 then -(-a / b) else -a / -b)
  }

  lemma Bounded(x: int, y: int, b: int)
    requires b > 0 && x * b < y * b + b
    ensures x <= y
  {
    if x > y { MulLe(y + 1, x, b); }
  }

  const INT_MAX: int := 0x7FFF_FFFF

  /** A 32-bit accumulator wraps. */
  function ToWord(x: int): (w: int)
    ensures -INT_MAX - 1 <= w <= INT_MAX
    ensures -INT_MAX - 1 <= x <= INT_MAX ==> w == x
  {
    if -INT_MAX - 1 <= x <= INT_MAX then x else (x + 0x8000_0000) % 0x1_0000_0000 - 0x8000_0000
  }

  /** Wrapping after every addition is wrapping once. */
  lemma WordAdd(x: int, y: int)
    ensures ToWord(ToWord(x) + y) == ToWord(x + y)
  {
  }

  /** What wraps loses at least 2^32. */
  lemma WordLoses(x: int)
    requires x > INT_MAX
    ensures ToWord(x) <= x - 0x1_0000_0000
  {
  }

  lemma ProductNonNegative(a: real, b: real)
    requires a >= 0.0 && b >= 0.0
    ensures a * b >= 0.0
  {
  }

  lemma MulLe(x: int, y: int, b: int)
    requires x <= y && b >= 0
    ensures x * b <= y * b
  {
    assert (y - x) * b >= 0;
  }

  lemma DivMeans(n: int, b: int)
    requires n >= 0 && b > 0
    ensures 0 <= n / b && n / b * b <= n < n / b * b + b
  {
  }

  lemma NegatedProduct(r: int, b: int)
    ensures -r * b == -(r * b)
  {
  }

  lemma TruncDivMeans(a: int, b: int)
    requires b > 0
    ensures var q := TruncDiv(a, b);
      q * b - b < a < q * b + b && if a >= 0 then 0 <= q && q * b <= a else q <= 0 && a <= q * b
  {
    if a >= 0 {
      DivMeans(a, b);
    } else {
      DivMeans(-a, b);
      NegatedProduct(-a / b, b);
    }
  }

  lemma TruncDivBetween(a: int, b: int, lo: int, hi: int)
    requires b > 0 && lo >= 0 && lo * b <= a <= hi * b
    ensures lo <= TruncDiv(a, b) <= hi
  {
    assert a >= 0;
    var q := a / b;
    assert q * b <= a < q * b + b;
    Bounded(lo, q, b);
    Bounded(q, hi, b);
  }

  const SHORT_MIN: int := -0x8000
  const SHORT_MAX: int := 0x7FFF

  predicate IsShort(x: int) { SHORT_MIN <= x <= SHORT_MAX }

  /** Conversion to 16 bits, which wraps. */
  function ToShort(x: int): (s: int)
    ensures IsShort(s) && (s - x) % 0x1_0000 == 0
    ensures IsShort(x) ==> s == x
  {
    (x + 0x8000) % 0x1_0000 - 0x8000
  }

  function Trunc(r: real): int { if r >= 0.0 then r.Floor else -(-r).Floor }

  /** Nearest integer, halves away from zero. */
  function Round(r: real): int { if r >= 0.0 then (r + 0.5).Floor else -(-r + 0.5).Floor }

  function DistanceSq(x1: real, y1: real, x2: real, y2: real): real {
    (x1 - x2) * (x1 - x2) + (y1 - y2) * (y1 - y2)
  }

  // ----- distinct ids -----

  ghost predicate DistinctIds(ids: seq<int>) {
    forall i, j :: 0 <= i < j < |ids| ==> ids[i] != ids[j]
  }

  ghost predicate ValidIds(ids: seq<int>) {
    DistinctIds(ids) && forall i :: 0 <= i < |ids| ==> 1 <= ids[i] <= MAX_TOUCHES
  }

  lemma {:induction false} DistinctBelow(ids: seq<int>, n: nat)
    requires DistinctIds(ids) && forall i :: 0 <= i < |ids| ==> 1 <= ids[i] <= n
    ensures |ids| <= n
    ensures |ids| == n ==> forall d :: 1 <= d <= n ==> d in ids
  {
    if |ids| > 0 {
      assert 1 <= ids[0] <= n;
      if n in ids {
        var k :| 0 <= k < |ids| && ids[k] == n;
        var rest := ids[..k] + ids[k + 1..];
        forall i, j | 0 <= i < j < |rest| ensures rest[i] != rest[j] {
          assert rest[i] == ids[if i < k then i else i + 1];
          assert rest[j] == ids[if j < k then j else j + 1];
        }
        forall i | 0 <= i < |rest| ensures 1 <= rest[i] <= n - 1 {
          assert rest[i] == ids[if i < k then i else i + 1];
        }
        DistinctBelow(rest, n - 1);
        if |ids| == n {
          forall d | 1 <= d <= n ensures d in ids {
            if d < n { assert d in rest; }
          }
        }
      } else {
        DistinctBelow(ids, n - 1);
      }
    }
  }

  /** A new id always finds room: twenty places for twenty ids. */
  lemma RoomForOneMore(ids: seq<int>, id: int)
    requires ValidIds(ids) && 1 <= id <= MAX_TOUCHES && id !in ids
    ensures |ids| < MAX_TOUCHES
    ensures ValidIds(ids + [id])
  {
    DistinctBelow(ids, MAX_TOUCHES);
  }
}
