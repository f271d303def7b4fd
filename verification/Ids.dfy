// Snowflake ids and their 13-character store keys (mastomini_rs/src/ids.rs).
module Ids {
  import opened Options

  const U64: nat := 0x1_0000_0000_0000_0000
  const PER_MS: nat := 0x1_0000

  // ---------------------------------------------------------------------------
  // Giving out ids
  // ---------------------------------------------------------------------------

  function Max(a: nat, b: nat): nat {
    if a < b then b else a
  }

  /** The next id after `last` at `now`, unless the clock does not fit or the ids have run out. */
  function NextId(last: nat, now: nat): Option<nat> {
    if now * PER_MS >= U64 || last + 1 >= U64 then None else Some(Max(now * PER_MS, last + 1))
  }

  class IdGen {
    var last: nat

    constructor ()
      ensures last == 0
    {
      last := 0;
    }

    method Observe(id: nat)
      modifies this
      ensures last == Max(old(last), id)
    {
      last := Max(last, id);
    }

    method Next(now: nat) returns (id: Option<nat>)
      modifies this
      ensures id == NextId(old(last), now) && last == if id.Some? then id.value else old(last)
    {
      if now * PER_MS >= U64 { return None; }
      var candidate := now * PER_MS;
      if last + 1 >= U64 { return None; }
      last := Max(candidate, last + 1);
      return Some(last);
    }
  }

  datatype Call = Observe(id: nat) | Next(now: nat)

  /** The last id after one call, and after some. */
  function AfterCall(last: nat, call: Call): nat {
    match call
    case Observe(id) => Max(last, id)
    case Next(now) => if NextId(last, now).Some? then NextId(last, now).value else last
  }

  function LastAfter(last: nat, calls: seq<Call>): nat
    decreases |calls|
  {
    if calls == [] then last else LastAfter(AfterCall(last, calls[0]), calls[1..])
  }

  /** The ids given out. */
  function Given(last: nat, calls: seq<Call>): seq<nat>
    decreases |calls|
  {
    if calls == [] then []
    else
      (if calls[0].Next? && NextId(last, calls[0].now).Some? then [NextId(last, calls[0].now).value] else [])
      + Given(AfterCall(last, calls[0]), calls[1..])
  }

  ghost predicate Increasing(ids: seq<nat>, above: nat, upTo: nat) {
    (forall i :: 0 <= i < |ids| ==> above < ids[i] <= upTo) && (forall i, j :: 0 <= i < j < |ids| ==> ids[i] < ids[j])
  }

  lemma IncreasingFrom(ids: seq<nat>, first: nat, above: nat, upTo: nat)
    requires Increasing(ids, first, upTo) && above < first <= upTo
    ensures Increasing([first] + ids, above, upTo)
  {
  }

  /** Whatever the clock does and whatever is observed, ids are new and increasing, and they fit a u64. */
  lemma {:induction false} IdsIncrease(last: nat, calls: seq<Call>)
    ensures Increasing(Given(last, calls), last, LastAfter(last, calls)) && last <= LastAfter(last, calls)
    ensures forall id :: id in Given(last, calls) ==> id < U64
    decreases |calls|
  {
    if calls != [] {
      var next := AfterCall(last, calls[0]);
      IdsIncrease(next, calls[1..]);
      if last < next { IncreasingFrom(Given(next, calls[1..]), next, last, LastAfter(last, calls)); }
    }
  }

  /** An observed id is below every id given out later. */
  lemma ObservedIsBelow(last: nat, calls: seq<Call>, seen: nat, later: seq<Call>)
    ensures forall i :: 0 <= i < |Given(LastAfter(last, calls + [Observe(seen)]), later)|
              ==> seen < Given(LastAfter(last, calls + [Observe(seen)]), later)[i]
  {
    ObservedIsKept(last, calls, seen);
    IdsIncrease(LastAfter(last, calls + [Observe(seen)]), later);
  }

  lemma {:induction false} ObservedIsKept(last: nat, calls: seq<Call>, seen: nat)
    ensures seen <= LastAfter(last, calls + [Observe(seen)])
    decreases |calls|
  {
    var all := calls + [Observe(seen)];
    if calls == [] {
      assert all[1..] == [];
    } else {
      assert all[1..] == calls[1..] + [Observe(seen)];
      ObservedIsKept(AfterCall(last, calls[0]), calls[1..], seen);
    }
  }

  function Nexts(calls: seq<Call>): nat {
    if calls == [] then 0 else (if calls[0].Next? then 1 else 0) + Nexts(calls[1..])
  }

  /** The least id that call `k` and the ids given out after it force. */
  function Forced(calls: seq<Call>, k: nat): nat
    requires k < |calls|
  {
    match calls[k]
    case Observe(id) => id + Nexts(calls[k + 1..])
    case Next(now) => now * PER_MS + Nexts(calls[k + 1..])
  }

  /** When every call succeeds, the last id is the greatest of what the start, each observed id and each clock
      reading force: no id is skipped without cause. */
  lemma {:induction false} LastIsGreatestForced(last: nat, calls: seq<Call>)
    requires |Given(last, calls)| == Nexts(calls)
    ensures var end := LastAfter(last, calls);
            && last + Nexts(calls) <= end && (forall k :: 0 <= k < |calls| ==> Forced(calls, k) <= end)
            && (end == last + Nexts(calls) || exists k :: 0 <= k < |calls| && Forced(calls, k) == end)
    decreases |calls|
  {
    if calls != [] {
      var first := AfterCall(last, calls[0]);
      GivenAtMost(first, calls[1..]);
      LastIsGreatestForced(first, calls[1..]);
      forall k | 0 < k < |calls| ensures Forced(calls, k) == Forced(calls[1..], k - 1) {
        assert calls[1..][k - 1 + 1..] == calls[k + 1..];
      }
      var end := LastAfter(last, calls);
      assert first == last || first == last + 1 || Forced(calls, 0) == first + Nexts(calls[1..]);
      if end != first + Nexts(calls[1..]) {
        var k :| 0 <= k < |calls[1..]| && Forced(calls[1..], k) == end;
        assert Forced(calls, k + 1) == end;
      }
    }
  }

  lemma {:induction false} GivenAtMost(last: nat, calls: seq<Call>)
    ensures |Given(last, calls)| <= Nexts(calls)
    decreases |calls|
  {
    if calls != [] { GivenAtMost(AfterCall(last, calls[0]), calls[1..]); }
  }

  // ---------------------------------------------------------------------------
  // Keys
  // ---------------------------------------------------------------------------

  const ALPHABET: string := "0123456789ABCDEFGHJKMNPQRSTVWXYZ"
  const WIDTH: nat := 13

  /** The last `n` digits of a number in base 32. */
  function Digits(letters: string, value: nat, n: nat): (text: string)
    requires |letters| == 32
    ensures |text| == n
  {
    if n == 0 then "" else Digits(letters, value / 32, n - 1) + [letters[value % 32]]
  }

  function B32(id: nat): string {
    Digits(ALPHABET, id, WIDTH)
  }

  method EncodeB32(id: nat) returns (out: array<char>)
    requires id < U64
    ensures out[..] == B32(id)
  {
    out := new char[WIDTH](i => '0');
    var value := id;
    var slot := WIDTH;
    while slot > 0
      invariant 0 <= slot <= WIDTH
      invariant Digits(ALPHABET, value, slot) + out[slot..] == B32(id)
    {
      ghost var rest := out[slot..];
      slot := slot - 1;
      out[slot] := ALPHABET[value % 32];
      assert out[slot..] == [ALPHABET[value % 32]] + rest;
      assert Digits(ALPHABET, value, slot + 1) + rest == Digits(ALPHABET, value / 32, slot) + ([ALPHABET[value % 32]] + rest);
      value := value / 32;
    }
    assert out[0..] == out[..];
    assert Digits(ALPHABET, value, 0) + out[..] == out[..];
  }

  /** The place of a character in the alphabet. */
  function Position(alphabet: string, c: char): (at: Option<nat>)
    ensures if at.Some? then at.value < |alphabet| && alphabet[at.value] == c else c !in alphabet
  {
    if alphabet == "" then None
    else if alphabet[0] == c then Some(0)
    else match Position(alphabet[1..], c)
      case Some(at) => Some(at + 1)
      case None => None
  }

  /** The number some characters spell, unless one is not a digit or the number does not fit a u64. */
  function Spelled(letters: string, text: string): Option<nat> {
    if text == "" then Some(0)
    else
      var front := Spelled(letters, text[..|text| - 1]);
      var digit := Position(letters, text[|text| - 1]);
      if front.None? || digit.None? || front.value * 32 + digit.value >= U64 then None
      else Some(front.value * 32 + digit.value)
  }

  function FromB32(text: string): Option<nat> {
    if |text| != WIDTH then None else Spelled(ALPHABET, text)
  }

  method DecodeB32(text: string) returns (id: Option<nat>)
    ensures id == FromB32(text)
  {
    if |text| != WIDTH { return None; }
    id := Spell(ALPHABET, text);
  }

  method Spell(letters: string, text: string) returns (number: Option<nat>)
    ensures number == Spelled(letters, text)
  {
    var value: nat := 0;
    for i := 0 to |text|
      invariant Spelled(letters, text[..i]) == Some(value)
    {
      SpelledNext(letters, text, i);
      var digit := Position(letters, text[i]);
      if digit.None? || value * 32 >= U64 || value * 32 + digit.value >= U64 {
        NoLongerSpelled(letters, text, i + 1);
        return None;
      }
      value := value * 32 + digit.value;
    }
    assert text[..|text|] == text;
    return Some(value);
  }

  lemma SpelledNext(letters: string, text: string, i: nat)
    requires i < |text|
    ensures var front, digit := Spelled(letters, text[..i]), Position(letters, text[i]);
            Spelled(letters, text[..i + 1])
            == if front.None? || digit.None? || front.value * 32 + digit.value >= U64 then None
               else Some(front.value * 32 + digit.value)
  {
    assert text[..i + 1][..i] == text[..i];
  }

  lemma {:induction false} NoLongerSpelled(letters: string, text: string, i: nat)
    requires i <= |text| && Spelled(letters, text[..i]).None?
    ensures Spelled(letters, text).None?
    decreases |text| - i
  {
    if i < |text| {
      SpelledNext(letters, text, i);
      NoLongerSpelled(letters, text, i + 1);
    } else {
      assert text[..i] == text;
    }
  }

  /** Thirty-two characters in the order of their bytes. */
  ghost predicate InOrder(letters: string) {
    |letters| == 32 && forall i, j :: 0 <= i < j < 32 ==> letters[i] < letters[j]
  }

  lemma AlphabetInOrder()
    ensures InOrder(ALPHABET)
  {
  }

  lemma {:induction false} PositionOf(letters: string, d: nat)
    requires d < |letters| && forall e :: 0 <= e < d ==> letters[e] != letters[d]
    ensures Position(letters, letters[d]) == Some(d)
  {
    if d > 0 { PositionOf(letters[1..], d - 1); }
  }

  function Pow32(n: nat): nat {
    if n == 0 then 1 else 32 * Pow32(n - 1)
  }

  lemma {:induction false} SpelledAreDigits(letters: string, text: string)
    requires InOrder(letters) && Spelled(letters, text).Some?
    ensures var value := Spelled(letters, text).value;
            value < U64 && value < Pow32(|text|) && text == Digits(letters, value, |text|)
  {
    if text != "" {
      var n := |text| - 1;
      SpelledAreDigits(letters, text[..n]);
      var v, d := Spelled(letters, text[..n]).value, Position(letters, text[n]).value;
      assert (v * 32 + d) / 32 == v && (v * 32 + d) % 32 == d;
      assert text == text[..n] + [text[n]];
    }
  }

  lemma {:induction false} DigitsAreSpelled(letters: string, value: nat, n: nat)
    requires InOrder(letters) && value < U64 && value < Pow32(n)
    ensures Spelled(letters, Digits(letters, value, n)) == Some(value)
  {
    if n > 0 {
      DigitsAreSpelled(letters, value / 32, n - 1);
      PositionOf(letters, value % 32);
      assert Digits(letters, value, n)[..n - 1] == Digits(letters, value / 32, n - 1);
    }
  }

  /** A string is a key exactly when it is the key of one id, and then it reads as that id. */
  lemma FromB32IsInverse(text: string, id: nat)
    ensures FromB32(text) == Some(id) <==> id < U64 && text == B32(id)
  {
    AlphabetInOrder();
    if Spelled(ALPHABET, text).Some? { SpelledAreDigits(ALPHABET, text); }
    ThirteenDigitsHoldU64();
    if id < U64 { DigitsAreSpelled(ALPHABET, id, WIDTH); }
  }

  lemma ThirteenDigitsHoldU64()
    ensures U64 < Pow32(WIDTH)
  {
    assert Pow32(3) == 0x8000;
    assert Pow32(6) == 0x4000_0000;
    assert Pow32(9) == 0x2000_0000_0000;
    assert Pow32(12) == 0x1000_0000_0000_0000;
  }

  /** The order of strings by their bytes. */
  predicate Below(a: string, b: string) {
    b != "" && (a == "" || a[0] < b[0] || (a[0] == b[0] && Below(a[1..], b[1..])))
  }

  lemma {:induction false} BelowByLast(a: string, b: string, x: char, y: char)
    requires |a| == |b|
    ensures Below(a + [x], b + [y]) <==> Below(a, b) || (a == b && x < y)
  {
    if a == "" {
      assert (a + [x])[1..] == "" && (b + [y])[1..] == "";
    } else {
      assert (a + [x])[1..] == a[1..] + [x] && (b + [y])[1..] == b[1..] + [y];
      assert a == [a[0]] + a[1..] && b == [b[0]] + b[1..];
      BelowByLast(a[1..], b[1..], x, y);
    }
  }

  lemma {:induction false} DigitsKeepOrder(letters: string, x: nat, y: nat, n: nat)
    requires InOrder(letters) && x < Pow32(n) && y < Pow32(n)
    ensures Below(Digits(letters, x, n), Digits(letters, y, n)) <==> x < y
    ensures Digits(letters, x, n) == Digits(letters, y, n) ==> x == y
  {
    if n > 0 {
      var a, b := Digits(letters, x / 32, n - 1), Digits(letters, y / 32, n - 1);
      DigitsKeepOrder(letters, x / 32, y / 32, n - 1);
      BelowByLast(a, b, letters[x % 32], letters[y % 32]);
      assert (a + [letters[x % 32]])[n - 1] == letters[x % 32] && (b + [letters[y % 32]])[n - 1] == letters[y % 32];
      assert (a + [letters[x % 32]])[..n - 1] == a && (b + [letters[y % 32]])[..n - 1] == b;
    }
  }

  /** Keys sort by their bytes as their ids do by number. */
  lemma KeysKeepOrder(x: nat, y: nat)
    requires x < U64 && y < U64
    ensures Below(B32(x), B32(y)) <==> x < y
  {
    AlphabetInOrder();
    ThirteenDigitsHoldU64();
    DigitsKeepOrder(ALPHABET, x, y, WIDTH);
  }

  function Millis(id: nat): nat {
    id / PER_MS
  }

  /** An id carries the millisecond it was made in, while the generator is not ahead of the clock. */
  lemma MillisIsClock(last: nat, now: nat)
    requires NextId(last, now).Some?
    ensures now <= Millis(NextId(last, now).value)
    ensures Millis(NextId(last, now).value) == now <==> last + 1 < (now + 1) * PER_MS
  {
  }
}
