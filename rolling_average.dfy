/** `RollingAverage` of main.js: a ring buffer holding the last `length` values
    pushed, whose average smooths the frame time. */
module RollingAverages {
  import opened JsValues

  /** The sum of a list of values, added from the front as the source's loop does. */
  function Sum(s: seq<real>): real {
    if s == [] then 0.0 else Sum(s[..|s| - 1]) + s[|s| - 1]
  }

  /** The buffer after the values `pushed` were pushed, in order, into `length`
      zeroed slots: each push writes the slot after the previous one, wrapping
      around after the last. */
  function Slots(pushed: seq<real>, length: nat): (s: seq<real>)
    requires length >= 1
    ensures |s| == length
  {
    if pushed == [] then seq(length, _ => 0.0)
    else
      var n := |pushed| - 1;
      Slots(pushed[..n], length)[n % length := pushed[n]]
  }

  /** The last `length` values pushed, or all of them while there are fewer. */
  function Window(pushed: seq<real>, length: nat): (w: seq<real>)
    ensures |w| <= length
  {
    if |pushed| <= length then pushed else pushed[|pushed| - length..]
  }

  /** Slots that no push has reached yet still hold 0. */
  lemma {:induction false} SlotUnwritten(pushed: seq<real>, length: nat, i: nat)
    requires length >= 1 && |pushed| <= i < length
    ensures Slots(pushed, length)[i] == 0.0
  {
    if pushed != [] {
      var n := |pushed| - 1;
      ModSmall(n, length);
      SlotUnwritten(pushed[..n], length, i);
    }
  }

  /** n * length is at least length for positive n. */
  lemma {:induction false} MulAtLeast(d: int, length: int)
    requires d >= 1 && length >= 1
    ensures d * length >= length
  {
    if d > 1 {
      MulAtLeast(d - 1, length);
      assert d * length == (d - 1) * length + length;
    }
  }

  /** The remainder is the r of any decomposition a == q * length + r. */
  lemma ModUnique(a: int, length: int, q: int, r: int)
    requires length >= 1 && a == q * length + r && 0 <= r < length
    ensures a % length == r
  {
    var q0, r0 := a / length, a % length;
    assert a == q0 * length + r0;
    var d := q - q0;
    assert d * length == r0 - r by { assert q * length - q0 * length == (q - q0) * length; }
    if d >= 1 {
      MulAtLeast(d, length);
    } else if d <= -1 {
      MulAtLeast(-d, length);
    }
  }

  lemma ModSmall(n: int, length: int)
    requires 0 <= n < length
    ensures n % length == n
  {
    ModUnique(n, length, 0, n);
  }

  /** A position and the one `length` pushes later share a slot. */
  lemma ModShift(n: int, length: int)
    requires length >= 1 && n >= length
    ensures (n - length) % length == n % length
  {
    var q, r := (n - length) / length, (n - length) % length;
    assert n - length == q * length + r;
    assert n == (q + 1) * length + r;
    ModUnique(n, length, q + 1, r);
  }

  /** Advancing the slot index and wrapping it is the slot of the next position. */
  lemma ModNext(n: int, length: int)
    requires length >= 1 && n >= 0
    ensures (n % length + 1) % length == (n + 1) % length
  {
    var q, r := n / length, n % length;
    assert n == q * length + r;
    if r + 1 < length {
      ModUnique(n + 1, length, q, r + 1);
      ModSmall(r + 1, length);
    } else {
      assert n + 1 == (q + 1) * length + 0;
      ModUnique(n + 1, length, q + 1, 0);
      ModUnique(r + 1, length, 1, 0);
    }
  }

  /** Two positions less than `length` apart land in different slots. */
  lemma ModDistinct(j: int, n: int, length: int)
    requires length >= 1 && 0 <= j < n < j + length
    ensures j % length != n % length
  {
    var qj, qn := j / length, n / length;
    assert j == qj * length + j % length && n == qn * length + n % length;
    if j % length == n % length {
      assert (qn - qj) * length == n - j by { assert qn * length - qj * length == (qn - qj) * length; }
      if qn - qj >= 1 { MulAtLeast(qn - qj, length); }
      else if qn - qj <= -1 { MulAtLeast(qj - qn, length); }
    }
  }

  /** Slot j % length holds push j, for each of the last `length` pushes. */
  lemma {:induction false} SlotHolds(pushed: seq<real>, length: nat, j: nat)
    requires length >= 1 && j < |pushed| <= j + length
    ensures Slots(pushed, length)[j % length] == pushed[j]
  {
    var n := |pushed| - 1;
    if j < n {
      ModDistinct(j, n, length);
      SlotHolds(pushed[..n], length, j);
    }
  }

  /** Replacing one entry changes the sum by the difference. */
  lemma {:induction false} SumUpdate(s: seq<real>, i: nat, v: real)
    requires i < |s|
    ensures Sum(s[i := v]) == Sum(s) - s[i] + v
  {
    var n := |s| - 1;
    if i == n {
      assert s[i := v][..n] == s[..n];
    } else {
      assert s[i := v][..n] == s[..n][i := v];
      SumUpdate(s[..n], i, v);
    }
  }

  /** `length` zeros add up to 0. */
  lemma {:induction false} SumZeros(k: nat)
    ensures Sum(seq(k, _ => 0.0)) == 0.0
  {
    if k > 0 {
      assert seq(k, _ => 0.0)[..k - 1] == seq(k - 1, _ => 0.0);
      SumZeros(k - 1);
    }
  }

  /** The buffer adds up to the last `length` values pushed: what `getAverage`
      divides by `length` is the sum of the window, zeros filling it until
      `length` values have been pushed. */
  lemma {:induction false} SlotsSum(pushed: seq<real>, length: nat)
    requires length >= 1
    ensures Sum(Slots(pushed, length)) == Sum(Window(pushed, length))
  {
    if pushed == [] {
      SumZeros(length);
    } else {
      SlotsSum(pushed[..|pushed| - 1], length);
      if |pushed| <= length {
        SlotsSumFilling(pushed, length);
      } else {
        SlotsSumFull(pushed, length);
      }
    }
  }

  /** A push while the buffer is filling writes a slot still holding 0, so it
      adds the value to the sum. */
  lemma {:induction false} SlotsSumFilling(pushed: seq<real>, length: nat)
    requires length >= 1 && 0 < |pushed| <= length
    requires Sum(Slots(pushed[..|pushed| - 1], length)) == Sum(Window(pushed[..|pushed| - 1], length))
    ensures Sum(Slots(pushed, length)) == Sum(Window(pushed, length))
  {
    var n := |pushed| - 1;
    var before := Slots(pushed[..n], length);
    ModSmall(n, length);
    assert Slots(pushed, length) == before[n := pushed[n]];
    SumUpdate(before, n, pushed[n]);
    SlotUnwritten(pushed[..n], length, n);
    assert Window(pushed, length)[..n] == Window(pushed[..n], length);
  }

  /** Before a push into a full buffer, the slot it writes holds the oldest
      value of the window. */
  lemma {:induction false} OldestSlot(pushed: seq<real>, length: nat)
    requires length >= 1 && |pushed| > length
    ensures var n := |pushed| - 1;
            Slots(pushed[..n], length)[n % length] == pushed[n - length]
  {
    var n := |pushed| - 1;
    SlotHolds(pushed[..n], length, n - length);
    ModShift(n, length);
  }

  /** Once the buffer is full, a push drops the oldest value from the front of
      the window and adds the new one at the back. */
  lemma {:induction false} WindowSlides(pushed: seq<real>, length: nat)
    requires length >= 1 && |pushed| > length
    ensures |Window(pushed[..|pushed| - 1], length)| == length
    ensures Window(pushed[..|pushed| - 1], length)[0] == pushed[|pushed| - 1 - length]
    ensures Window(pushed, length) == Window(pushed[..|pushed| - 1], length)[1..] + [pushed[|pushed| - 1]]
  {
    var n := |pushed| - 1;
    var w := Window(pushed[..n], length);
    assert w == pushed[n - length..n];
    assert Window(pushed, length) == pushed[n - length + 1..];
    assert pushed[n - length + 1..] == pushed[n - length + 1..n] + [pushed[n]];
  }

  /** A push into a full buffer overwrites the oldest value of the window. */
  lemma {:induction false} SlotsSumFull(pushed: seq<real>, length: nat)
    requires length >= 1 && |pushed| > length
    requires Sum(Slots(pushed[..|pushed| - 1], length)) == Sum(Window(pushed[..|pushed| - 1], length))
    ensures Sum(Slots(pushed, length)) == Sum(Window(pushed, length))
  {
    var n := |pushed| - 1;
    var before, slot, oldest := Slots(pushed[..n], length), n % length, pushed[n - length];
    SumUpdate(before, slot, pushed[n]);
    assert Sum(Slots(pushed, length)) == Sum(before) - before[slot] + pushed[n];
    OldestSlot(pushed, length);
    var w, window := Window(pushed[..n], length), Window(pushed, length);
    WindowSlides(pushed, length);
    SumFront(w);
    assert window[..length - 1] == w[1..];
  }

  /** The sum, taken from the front. */
  lemma {:induction false} SumFront(s: seq<real>)
    requires s != []
    ensures Sum(s) == s[0] + Sum(s[1..])
  {
    var n := |s| - 1;
    if n > 0 {
      SumFront(s[..n]);
      assert s[..n][1..] == s[1..][..n - 1];
    } else {
      assert s[1..] == [];
    }
  }

  class RollingAverage {
    const length: nat
    var values: array<real>
    var nextIdx: nat
    /** Every value pushed so far, oldest first. */
    ghost var pushed: seq<real>

    /** The buffer has `length` slots, the next write goes after the last push,
        and the slots hold what the pushes left there. */
    ghost predicate Valid()
      reads this, values
    {
      length >= 1 && values.Length == length && nextIdx == |pushed| % length &&
      values[..] == Slots(pushed, length)
    }

    /** The constructor: `length` slots filled with 0 and the next write at slot 0. */
    constructor (inLength: nat)
      requires inLength >= 1
      ensures Valid() && fresh(values) && length == inLength && pushed == []
      ensures nextIdx == 0 && values[..] == seq(inLength, _ => 0.0)
    {
      length := inLength;
      values := new real[inLength](_ => 0.0);
      nextIdx := 0;
      pushed := [];
    }

    /** `push`: write the value at `nextIdx` only, and advance `nextIdx` by one,
        wrapping around to 0 after the last slot. */
    method Push(inValue: real)
      requires Valid()
      modifies this, values
      ensures Valid() && values == old(values) && pushed == old(pushed) + [inValue]
      ensures values[..] == old(values[..])[old(nextIdx) := inValue]
      ensures nextIdx == (old(nextIdx) + 1) % length && nextIdx < length
    {
      values[nextIdx] := inValue;
      ghost var n := |pushed|;
      pushed := pushed + [inValue];
      assert pushed[..n] == old(pushed);
      ModNext(n, length);
      nextIdx := (nextIdx + 1) % length;
    }

    /** `getAverage`: the sum of the `length` slots divided by `length`, which is
        the mean of the last `length` values pushed (zeros filling the window
        until there are that many). */
    method GetAverage() returns (avg: real)
      requires Valid()
      ensures avg == Sum(values[..]) / (length as real)
      ensures avg == Sum(Window(pushed, length)) / (length as real)
    {
      var sum := 0.0;
      var valueIdx := 0;
      while valueIdx < length
        invariant 0 <= valueIdx <= length
        invariant sum == Sum(values[..valueIdx])
      {
        assert values[..valueIdx + 1][..valueIdx] == values[..valueIdx];
        sum := sum + values[valueIdx];
        valueIdx := valueIdx + 1;
      }
      assert values[..valueIdx] == values[..];
      avg := sum / (length as real);
      SlotsSum(pushed, length);
    }
  }

  // ---------------------------------------------------------------- as written

  /** `values` as written: `new Array(5)` filled with 0, whatever the length; a
      write past the end grows the array, leaving holes (`undefined`) between. */
  function WriteAsWritten(buf: seq<JsValue>, i: nat, v: real): (r: seq<JsValue>)
    ensures |r| == if i < |buf| then |buf| else i + 1
    ensures r[i] == Num(v)
    ensures forall j :: 0 <= j < |buf| && j != i ==> r[j] == buf[j]
    ensures forall j :: |buf| <= j < i ==> r[j] == Undefined
  {
    if i < |buf| then buf[i := Num(v)] else buf + seq(i - |buf|, _ => Undefined) + [Num(v)]
  }

  /** The buffer as written after the values `pushed`. */
  function SlotsAsWritten(pushed: seq<real>, length: nat): seq<JsValue>
    requires length >= 1
  {
    if pushed == [] then seq(5, _ => Num(0.0))
    else
      var n := |pushed| - 1;
      WriteAsWritten(SlotsAsWritten(pushed[..n], length), n % length, pushed[n])
  }

  /** The loop of `getAverage` as written over the first k slots: adding
      `undefined` makes the sum NaN. */
  function SumAsWritten(buf: seq<JsValue>, k: nat): JsValue {
    if k == 0 then Num(0.0) else Add(SumAsWritten(buf, k - 1), Get(buf, k - 1))
  }

  function AverageAsWritten(pushed: seq<real>, length: nat): JsValue
    requires length >= 1
  {
    var s := SumAsWritten(SlotsAsWritten(pushed, length), length);
    if s.Num? then Num(s.value / (length as real)) else NaN
  }

  /** The game's `RollingAverage(60)` after one frame time of 16 ms: as written
      the average is NaN, since slots 6 to 59 are holes, while the intended
      buffer of 60 zeroed slots averages to 16/60. */
  lemma AverageAsWrittenIsNaN()
    ensures AverageAsWritten([16.0], 60) == NaN
    ensures Sum(Window([16.0], 60)) / 60.0 == 16.0 / 60.0
  {
    var buf := SlotsAsWritten([16.0], 60);
    assert [16.0][..0] == [];
    assert buf == seq(5, _ => Num(0.0))[0 := Num(16.0)];
    assert Get(buf, 59) == Undefined;
    assert SumAsWritten(buf, 60) == NaN;
    assert Sum([16.0]) == Sum([16.0][..0]) + 16.0;
  }
}
