/**
  Ticket identifiers. `generate_ticket_id` formats five values drawn from
  Python's `random` module: `randint(1000, 9999)`, two choices from
  `string.ascii_uppercase`, `randint(0, 9)` and one more uppercase choice.
  The draws are parameters here, so generation is a pure function.
 */
module TicketIds {
  import opened PyText

  /** Membership in `string.ascii_uppercase`. */
  predicate IsUpper(c: char) {
    'A' <= c <= 'Z'
  }

  /** The five random values, in the order the f-string draws them. */
  datatype Draws = Draws(number: int, first: char, second: char, digit: int, last: char)

  /** What `random` can return for each draw (both `randint` bounds are inclusive). */
  predicate ValidDraws(d: Draws) {
    && 1000 <= d.number <= 9999
    && IsUpper(d.first) && IsUpper(d.second)
    && 0 <= d.digit <= 9
    && IsUpper(d.last)
  }

  /** The fixed shape of a ticket ID: four digits not starting with '0', two
      uppercase letters, one digit, one uppercase letter. */
  predicate IsTicketId(s: string) {
    && |s| == 8
    && IsDigit(s[0]) && s[0] != '0' && IsDigit(s[1]) && IsDigit(s[2]) && IsDigit(s[3])
    && IsUpper(s[4]) && IsUpper(s[5])
    && IsDigit(s[6])
    && IsUpper(s[7])
  }

  /** A number in 1000..9999 prints as exactly four digits. */
  lemma FourDigits(n: int)
    requires 1000 <= n <= 9999
    ensures |NatToString(n)| == 4
  {
    var a := n / 10;
    var b := a / 10;
    var c := b / 10;
    assert 100 <= a <= 999 && 10 <= b <= 99 && 1 <= c <= 9;
    assert |NatToString(c)| == 1;
    assert |NatToString(b)| == 2 by {
      assert NatToString(b) == NatToString(c) + [DigitChar(b % 10)];
    }
    assert |NatToString(a)| == 3 by {
      assert NatToString(a) == NatToString(b) + [DigitChar(a % 10)];
    }
    assert NatToString(n) == NatToString(a) + [DigitChar(n % 10)];
  }

  /** `generate_ticket_id()` for the given draws. */
  function Generate(d: Draws): (id: string)
    requires ValidDraws(d)
    ensures IsTicketId(id)
    ensures DigitsValue(id[..4]) == d.number
    ensures id[4] == d.first && id[5] == d.second
    ensures DigitValue(id[6]) == d.digit
    ensures id[7] == d.last
  {
    FourDigits(d.number);
    var number := NatToString(d.number);
    var id := number + [d.first, d.second] + NatToString(d.digit) + [d.last];
    assert id[..4] == number;
    id
  }

  /** Reads the draws back out of a well-formed ticket ID. */
  function Decode(id: string): (d: Draws)
    requires IsTicketId(id)
    ensures ValidDraws(d)
  {
    var number := id[..4];
    assert AllDigits(number);
    FourDigitBounds(number);
    Draws(DigitsValue(number), id[4], id[5], DigitValue(id[6]), id[7])
  }

  /** Four digits not starting with '0' denote a number in 1000..9999. */
  lemma FourDigitBounds(s: string)
    requires |s| == 4 && AllDigits(s) && s[0] != '0'
    ensures 1000 <= DigitsValue(s) <= 9999
  {
    assert s[..4][..3] == s[..3] && s[..3][..2] == s[..2] && s[..2][..1] == s[..1] && s[..1][..0] == [];
    var v0, v1, v2, v3 := DigitValue(s[0]), DigitValue(s[1]), DigitValue(s[2]), DigitValue(s[3]);
    assert DigitsValue(s[..1]) == v0;
    assert DigitsValue(s[..2]) == v0 * 10 + v1;
    assert DigitsValue(s[..3]) == (v0 * 10 + v1) * 10 + v2;
    assert s == s[..4];
    assert DigitsValue(s) == ((v0 * 10 + v1) * 10 + v2) * 10 + v3;
  }

  /** Decoding undoes generation: distinct draws give distinct IDs. */
  lemma DecodeGenerate(d: Draws)
    requires ValidDraws(d)
    ensures Decode(Generate(d)) == d
  {
  }

  /** Generation undoes decoding: every well-formed ID can be generated. */
  lemma {:induction false} GenerateDecode(id: string)
    requires IsTicketId(id)
    ensures Generate(Decode(id)) == id
  {
    var d := Decode(id);
    var number := id[..4];
    assert IsCanonicalNumeral(number);
    NatToStringOfValue(number);
    assert id[6..7] == [id[6]];
    assert NatToString(d.digit) == [DigitChar(d.digit)];
    assert DigitChar(d.digit) == id[6];
    assert id == number + [id[4], id[5]] + [id[6]] + [id[7]];
  }

  /** The strings `generate_ticket_id` can return are exactly the well-formed IDs. */
  lemma GeneratedExactlyTicketIds(id: string)
    ensures IsTicketId(id) <==> exists d :: ValidDraws(d) && Generate(d) == id
  {
    if IsTicketId(id) {
      GenerateDecode(id);
    }
  }
}
