/** Record identifiers. Every id the engine mints is the decimal rendering of a
    counter followed by the fixed suffix ".1" (SimulatorHandler.php, lines
    1236, 1312 and 1346). Reading the counter back out of an id is what lets
    the model prove that ids are never reused. */
module Ids {
  import opened Base

  predicate IsDigit(c: char) {
    '0' <= c <= '9'
  }

  predicate AllDigits(s: string) {
    forall i :: 0 <= i < |s| ==> IsDigit(s[i])
  }

  function Digit(d: nat): (c: char)
    requires d < 10
    ensures IsDigit(c)
  {
    ('0' as int + d) as char
  }

  function DigitValue(c: char): (d: nat)
    requires IsDigit(c)
    ensures d < 10
  {
    c as int - '0' as int
  }

  /** PHP's string conversion of a non-negative integer. */
  function Decimal(n: nat): (s: string)
    ensures 1 <= |s| && AllDigits(s)
    decreases n
  {
    if n < 10 then [Digit(n)] else Decimal(n / 10) + [Digit(n % 10)]
  }

  function ParseDecimal(s: string): (n: nat)
    requires 1 <= |s| && AllDigits(s)
    decreases |s|
  {
    if |s| == 1 then DigitValue(s[0])
    else ParseDecimal(s[..|s| - 1]) * 10 + DigitValue(s[|s| - 1])
  }

  lemma {:induction false} ParseDecimalOfDecimal(n: nat)
    ensures ParseDecimal(Decimal(n)) == n
    decreases n
  {
    if n >= 10 {
      var s := Decimal(n);
      assert s[..|s| - 1] == Decimal(n / 10);
      ParseDecimalOfDecimal(n / 10);
    }
  }

  /** The id minted for counter value `n`: "<n>.1". */
  function IdOf(n: nat): string {
    Decimal(n) + ".1"
  }

  /** The counter value an id was minted from, if it has the "<n>.1" shape. */
  function SequenceOf(id: string): (r: Option<nat>)
    ensures r.Some? ==> 3 <= |id| && id[|id| - 2..] == ".1"
  {
    if 3 <= |id| && id[|id| - 2..] == ".1" && AllDigits(id[..|id| - 2])
    then Some(ParseDecimal(id[..|id| - 2]))
    else None
  }

  lemma SequenceOfIdOf(n: nat)
    ensures SequenceOf(IdOf(n)) == Some(n)
  {
    var id := IdOf(n);
    assert id[..|id| - 2] == Decimal(n);
    assert id[|id| - 2..] == ".1";
    ParseDecimalOfDecimal(n);
  }

  /** Distinct counter values give distinct ids. */
  lemma IdOfInjective(m: nat, n: nat)
    ensures IdOf(m) == IdOf(n) ==> m == n
  {
    SequenceOfIdOf(m);
    SequenceOfIdOf(n);
  }

  /** `id` was minted by a counter that has reached `n`. */
  predicate IssuedBy(id: string, n: nat) {
    SequenceOf(id).Some? && 1 <= SequenceOf(id).value <= n
  }

  /** The next id a counter at `n` mints is one it has never minted. */
  lemma NextIdIsFresh(id: string, n: nat)
    requires IssuedBy(id, n)
    ensures id != IdOf(n + 1)
    ensures IssuedBy(IdOf(n + 1), n + 1)
  {
    SequenceOfIdOf(n + 1);
  }
}
