/** Per-card session keys.
    Every piece of per-card state keyed by card id lives in one flat
    session-wide dictionary under a key `prefix + "_" + str(card_id)`. This module models Python's
    `str` on integers and that key scheme, and proves that, for a fixed
    prefix, distinct card ids never share a key. */
module SlotKeys {

  /** The character of a decimal digit. */
  function DigitChar(d: int): (c: char)
    requires 0 <= d < 10
    ensures '0' <= c <= '9'
    ensures (c as int) - ('0' as int) == d
  {
    (('0' as int) + d) as char
  }

  /** The numeric value of a digit character. */
  function DigitValue(c: char): (d: int)
    ensures '0' <= c <= '9' ==> 0 <= d < 10
  {
    (c as int) - ('0' as int)
  }

  ghost predicate AllDigits(s: string)
  {
    forall k :: 0 <= k < |s| ==> '0' <= s[k] <= '9'
  }

  /** Decimal notation of a natural number, most significant digit first,
      without leading zeros. */
  function Decimal(n: nat): (s: string)
    ensures |s| >= 1
    ensures AllDigits(s)
    decreases n
  {
    if n < 10 then [DigitChar(n)] else Decimal(n / 10) + [DigitChar(n % 10)]
  }

  /** Reads a string of digits back as a natural number. */
  function ParseDecimal(s: string): (n: int)
    ensures AllDigits(s) ==> n >= 0
    decreases |s|
  {
    if |s| == 0 then 0 else ParseDecimal(s[..|s| - 1]) * 10 + DigitValue(s[|s| - 1])
  }

  lemma {:induction false} DecimalRoundTrip(n: nat)
    ensures ParseDecimal(Decimal(n)) == n
    decreases n
  {
    var s := Decimal(n);
    if n < 10 {
      assert s[..|s| - 1] == [];
    } else {
      assert s[..|s| - 1] == Decimal(n / 10);
      DecimalRoundTrip(n / 10);
    }
  }

  /** Python's `str(i)` / `f"{i}"` on an int: optional minus sign, then decimal digits. */
  function IntToString(i: int): (s: string)
    ensures |s| >= 1
    ensures s[0] == '-' <==> i < 0
    ensures i >= 0 ==> AllDigits(s)
  {
    if i < 0 then "-" + Decimal(-i) else Decimal(i)
  }

  function ParseInt(s: string): (i: int)
  {
    if |s| > 0 && s[0] == '-' then -ParseDecimal(s[1..]) else ParseDecimal(s)
  }

  lemma IntToStringRoundTrip(i: int)
    ensures ParseInt(IntToString(i)) == i
  {
    if i < 0 {
      var s := IntToString(i);
      assert s[1..] == Decimal(-i);
      DecimalRoundTrip(-i);
    } else {
      var d := Decimal(i);
      assert '0' <= d[0] <= '9';
      DecimalRoundTrip(i);
    }
  }

  /** The key of a per-card slot: `f"{prefix}_{card_id}"`. */
  function SlotKey(prefix: string, cardId: int): (k: string)
    ensures |k| > |prefix| + 1
    ensures k[..|prefix|] == prefix && k[|prefix|] == '_'
  {
    prefix + "_" + IntToString(cardId)
  }

  /** Two keys with the same prefix coincide exactly when the card ids do. */
  lemma SlotKeyInjective(prefix: string, a: int, b: int)
    ensures SlotKey(prefix, a) == SlotKey(prefix, b) <==> a == b
  {
    if SlotKey(prefix, a) == SlotKey(prefix, b) {
      var n := |prefix| + 1;
      assert SlotKey(prefix, a)[n..] == IntToString(a);
      assert SlotKey(prefix, b)[n..] == IntToString(b);
      IntToStringRoundTrip(a);
      IntToStringRoundTrip(b);
    }
  }
}
