/**
 The progress files of the examples: "received,gaps,dup" written by the child and polled by the
 parent of examples/ordering.php, a single decimal in the other examples.
 */
module Progress {
  import opened Base

  type Count = n: int | 0 <= n < TWO_63

  function Digit(d: int): char
    requires 0 <= d < 10
  {
    '0' + d as char
  }

  predicate IsDigit(c: char) {
    '0' <= c <= '9'
  }

  /** PHP's decimal conversion of a non-negative int. */
  function Decimal(n: nat): (s: string)
    ensures s != []
    ensures forall c | c in s :: IsDigit(c)
  {
    if n < 10 then [Digit(n)] else Decimal(n / 10) + [Digit(n % 10)]
  }

  /** The leading digits of a string. */
  function LeadingDigits(s: string): string {
    if s == [] || !IsDigit(s[0]) then [] else [s[0]] + LeadingDigits(s[1..])
  }

  function Value(digits: string): nat
    requires forall c | c in digits :: IsDigit(c)
  {
    if digits == [] then 0
    else
      var last := |digits| - 1;
      assert IsDigit(digits[last]);
      var digit: nat := digits[last] as int - '0' as int;
      10 * Value(digits[..last]) + digit
  }

  lemma {:induction false} LeadingDigitsAreDigits(s: string)
    ensures forall c | c in LeadingDigits(s) :: IsDigit(c)
  {
    if s != [] && IsDigit(s[0]) {
      LeadingDigitsAreDigits(s[1..]);
    }
  }

  /** `(int)$s` on a string that starts with no space or sign: its leading digits, up to PHP_INT_MAX. */
  function ToInt(s: string): Count {
    LeadingDigitsAreDigits(s);
    var v := Value(LeadingDigits(s));
    if v < TWO_63 then v else TWO_63 - 1
  }

  /** `explode(',', $s)` */
  function Explode(s: string): (parts: seq<string>)
    ensures parts != []
  {
    if s == [] then [[]]
    else
      var rest := Explode(s[1..]);
      if s[0] == ',' then [[]] + rest else [[s[0]] + rest[0]] + rest[1..]
  }

  predicate IsSpace(c: char) {
    c in " \t\n\r\0" || c as int == 0x0B
  }

  function Trim(s: string): string {
    if s != [] && IsSpace(s[0]) then Trim(s[1..])
    else if s != [] && IsSpace(s[|s| - 1]) then Trim(s[..|s| - 1])
    else s
  }

  /** What the polling loop makes of the file: nothing while it is empty or says ready; a missing part
      counts as 0. */
  function Poll(file: string): Option<(Count, Count, Count)> {
    var val := Trim(file);
    if val == "" || val == "ready" || ',' !in val then None
    else
      var parts := Explode(val);
      var part := (i: nat) => if i < |parts| then ToInt(parts[i]) else 0;
      Some((part(0), part(1), part(2)))
  }

  // ---------------------------------------------------------------- round trip

  lemma {:induction false} ValueInvertsDecimal(n: nat)
    ensures Value(Decimal(n)) == n
  {
    if n < 10 {
      assert Decimal(n)[..0] == [];
    } else {
      ValueInvertsDecimal(n / 10);
      var s := Decimal(n);
      assert s[..|s| - 1] == Decimal(n / 10);
    }
  }

  lemma {:induction false} DigitsOnly(s: string)
    requires forall c | c in s :: IsDigit(c)
    ensures LeadingDigits(s) == s && Explode(s) == [s]
  {
    if s != [] {
      assert forall c | c in s[1..] :: c in s;
      DigitsOnly(s[1..]);
      assert s == [s[0]] + s[1..];
      assert s[0] in s;
    }
  }

  lemma {:induction false} ExplodeAtComma(s: string, t: string)
    requires ',' !in s
    ensures Explode(s + "," + t) == [s] + Explode(t)
  {
    if s == [] {
      assert s + "," + t == "," + t && ("," + t)[1..] == t;
    } else {
      var whole := s + "," + t;
      assert whole[1..] == s[1..] + "," + t;
      ExplodeAtComma(s[1..], t);
      assert s == [s[0]] + s[1..];
    }
  }

  lemma TrimNothing(s: string)
    requires s != [] && !IsSpace(s[0]) && !IsSpace(s[|s| - 1])
    ensures Trim(s) == s
  {
  }

  lemma NumberReadsBack(n: Count)
    ensures ToInt(Decimal(n)) == n
  {
    DigitsOnly(Decimal(n));
    ValueInvertsDecimal(n);
  }

  lemma DecimalHasNoSpace(n: nat)
    ensures var s := Decimal(n); IsDigit(s[0]) && IsDigit(s[|s| - 1])
  {
    var s := Decimal(n);
    assert s[0] in s && s[|s| - 1] in s;
  }

  /** The decimal digits, most significant first, without leading zeros. */
  lemma DecimalDigits(n: nat, d: nat)
    requires d < 10
    ensures Decimal(d) == ["0123456789"[d]]
    ensures n > 0 ==> Decimal(10 * n + d) == Decimal(n) + ["0123456789"[d]]
  {
    assert (10 * n + d) / 10 == n && (10 * n + d) % 10 == d;
  }

  /** A single decimal, as the other examples write it, reads back. */
  lemma DecimalReadsBack(n: Count)
    ensures ToInt(Trim(Decimal(n))) == n
  {
    DecimalHasNoSpace(n);
    TrimNothing(Decimal(n));
    NumberReadsBack(n);
  }

  lemma RecordParts(r: string, g: string, d: string)
    requires ',' !in r && ',' !in g && ',' !in d && Explode(d) == [d]
    ensures Explode(r + "," + g + "," + d) == [r, g, d]
  {
    ExplodeAtComma(g, d);
    ExplodeAtComma(r, g + "," + d);
    assert r + "," + g + "," + d == r + "," + (g + "," + d);
    assert [r] + ([g] + [d]) == [r, g, d];
  }

  /** Every record reads back as the three numbers it was made from; so no two triples share a record,
      and no record is taken for the file's earlier contents. */
  lemma RecordReadsBack(received: Count, gaps: Count, dup: Count)
    ensures Poll(Decimal(received) + "," + Decimal(gaps) + "," + Decimal(dup)) == Some((received, gaps, dup))
    ensures Poll("") == None && Poll("ready") == None
  {
    var r, g, d := Decimal(received), Decimal(gaps), Decimal(dup);
    DigitsOnly(r);
    DigitsOnly(g);
    DigitsOnly(d);
    RecordParts(r, g, d);
    DecimalHasNoSpace(received);
    DecimalHasNoSpace(dup);
    PollsParts(r + "," + g + "," + d, r, g, d);
    NumberReadsBack(received);
    NumberReadsBack(gaps);
    NumberReadsBack(dup);
    TrimNothing("ready");
  }

  lemma PollsParts(s: string, r: string, g: string, d: string)
    requires s == r + "," + g + "," + d && Explode(s) == [r, g, d]
    requires r != [] && d != [] && IsDigit(r[0]) && IsDigit(d[|d| - 1])
    ensures Poll(s) == Some((ToInt(r), ToInt(g), ToInt(d)))
  {
    assert s[|r|] == ',' && s[0] == r[0] && s[|s| - 1] == d[|d| - 1];
    assert s[0] != "ready"[0];
    TrimNothing(s);
  }
}
