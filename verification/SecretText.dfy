/** The text of a gateway key, `sk-dg-<id>.<tail>`, printed and parsed (ingress/keyring/keyring.go). */
module SecretText {
  import opened Text

  const PREFIX := "sk-dg-"

  const MAX_INT64: int := 0x7FFF_FFFF_FFFF_FFFF
  const MIN_INT64: int := -0x8000_0000_0000_0000

  predicate IsDigit(c: char) {
    '0' <= c <= '9'
  }

  predicate AllDigits(s: string) {
    forall c | c in s :: IsDigit(c)
  }

  /** Decimal digits of a number, as `%d` prints them. */
  function Digits(n: nat): (s: string)
    ensures s != "" && AllDigits(s)
  {
    if n < 10 then ['0' + n as char] else Digits(n / 10) + ['0' + (n % 10) as char]
  }

  function Number(s: string): nat
    requires AllDigits(s)
  {
    if s == "" then 0
    else
      assert IsDigit(s[|s| - 1]);
      10 * Number(s[..|s| - 1]) + (s[|s| - 1] as int - '0' as int)
  }

  /** Go's `strconv.ParseInt(s, 10, 64)`: an optional sign, at least one digit, and a value that fits. */
  function ParseInt(s: string): Option<int> {
    var signed := s != "" && (s[0] == '+' || s[0] == '-');
    var body := if signed then s[1..] else s;
    if body == "" || !AllDigits(body) then None
    else
      var value := (if signed && s[0] == '-' then -1 else 1) * (Number(body) as int);
      if MIN_INT64 <= value <= MAX_INT64 then Some(value) else None
  }

  /** `formatSecret`, once its random tail is drawn. */
  function Format(id: nat, tail: string): string {
    PREFIX + Digits(id) + "." + tail
  }

  function ParseKeyId(secret: string): (r: Option<nat>)
    ensures r.Some? ==> 1 <= r.value <= MAX_INT64
  {
    if !(PREFIX <= secret) then None
    else
      var rest := secret[|PREFIX|..];
      var dot := IndexOf(rest, '.');
      if dot <= 0 then None
      else
        var id := ParseInt(rest[..dot]);
        if id.None? || id.value <= 0 || dot + 1 >= |rest| then None else Some(id.value)
  }

  lemma {:induction false} NumberOfDigits(n: nat)
    ensures Number(Digits(n)) == n
  {
    if n >= 10 {
      NumberOfDigits(n / 10);
      var d := Digits(n);
      assert d[..|d| - 1] == Digits(n / 10);
    } else {
      assert Digits(n)[..0] == "";
    }
  }

  lemma {:induction false} FirstDot(body: string, tail: string)
    requires '.' !in body
    ensures IndexOf(body + "." + tail, '.') == |body|
  {
    if body == "" {
      assert (body + "." + tail)[0] == '.';
    } else {
      assert (body + "." + tail)[1..] == body[1..] + "." + tail;
      assert (body + "." + tail)[0] == body[0];
      FirstDot(body[1..], tail);
    }
  }

  /** A text is accepted with an id exactly when it is the prefix, a dot-free int64 numeral of that positive id,
      a dot, and a tail that is not empty. */
  lemma AcceptedTexts(secret: string, id: nat)
    ensures ParseKeyId(secret) == Some(id) <==>
            id > 0 && exists body, tail | '.' !in body && tail != "" && ParseInt(body) == Some(id) ::
                        secret == "sk-dg-" + body + "." + tail
  {
    hide ParseInt, IndexOf, ParseKeyId;
    if ParseKeyId(secret) == Some(id) {
      var body, tail := CutText(secret, id);
      assert '.' !in body && tail != "" && ParseInt(body) == Some(id) && secret == "sk-dg-" + body + "." + tail;
    }
    if body, tail :| '.' !in body && tail != "" && ParseInt(body) == Some(id) && id > 0
                     && secret == "sk-dg-" + body + "." + tail {
      ParsesTo(body, tail, id);
    }
  }

  lemma CutText(secret: string, id: nat) returns (body: string, tail: string)
    requires ParseKeyId(secret) == Some(id)
    ensures '.' !in body && tail != "" && ParseInt(body) == Some(id) && secret == "sk-dg-" + body + "." + tail
  {
    hide ParseInt, IndexOf;
    var rest := secret[|PREFIX|..];
    var dot := IndexOf(rest, '.');
    body, tail := rest[..dot], rest[dot + 1..];
    assert rest == body + "." + tail;
    assert secret == PREFIX + rest == PREFIX + body + "." + tail;
  }

  function Zeros(n: nat): (s: string)
    ensures |s| == n && forall c | c in s :: c == '0'
  {
    if n == 0 then "" else Zeros(n - 1) + "0"
  }

  /** Which numerals an id can be given by: its decimal digits, after any zeros and at most one plus sign. */
  lemma NumeralIs(body: string, id: nat)
    requires id > 0
    ensures ParseInt(body) == Some(id) <==>
            id <= 0x7FFF_FFFF_FFFF_FFFF
            && exists zeros: nat :: body == Zeros(zeros) + Digits(id) || body == "+" + Zeros(zeros) + Digits(id)
  {
    hide Digits, Number, Zeros;
    var signed := body != "" && (body[0] == '+' || body[0] == '-');
    var digits := if signed then body[1..] else body;
    if ParseInt(body) == Some(id) {
      var zeros := LeadingZeros(digits, id);
      assert signed ==> body == "+" + digits;
      assert "+" + (Zeros(zeros) + Digits(id)) == "+" + Zeros(zeros) + Digits(id);
    }
    if zeros: nat :| body == Zeros(zeros) + Digits(id) || body == "+" + Zeros(zeros) + Digits(id) {
      var plain := Zeros(zeros) + Digits(id);
      assert "+" + Zeros(zeros) + Digits(id) == "+" + plain;
      PaddedNumber(zeros, id);
      assert plain[0] in plain;
      assert digits == plain;
    }
  }

  lemma {:induction false} LeadingZeros(s: string, n: nat) returns (zeros: nat)
    requires AllDigits(s) && Number(s) == n > 0
    ensures s == Zeros(zeros) + Digits(n)
  {
    var k := |s| - 1;
    var p := s[..k];
    assert s == p + [s[k]];
    assert IsDigit(s[k]);
    if Number(p) == 0 {
      NothingButZeros(p);
      zeros := k;
    } else {
      zeros := LeadingZeros(p, n / 10);
      assert Digits(n) == Digits(n / 10) + [s[k]];
    }
  }

  lemma {:induction false} NothingButZeros(s: string)
    requires AllDigits(s) && Number(s) == 0
    ensures s == Zeros(|s|)
  {
    if s != "" {
      var k := |s| - 1;
      assert s == s[..k] + [s[k]];
      assert IsDigit(s[k]);
      NothingButZeros(s[..k]);
    }
  }

  lemma {:induction false} PaddedNumber(zeros: nat, n: nat)
    ensures AllDigits(Zeros(zeros) + Digits(n)) && Number(Zeros(zeros) + Digits(n)) == n
  {
    hide Number, Zeros, Digits;
    var front := if n < 10 then Zeros(zeros) else Zeros(zeros) + Digits(n / 10);
    LastDigit(n);
    if n < 10 {
      ZerosAreZero(zeros);
    } else {
      PaddedNumber(zeros, n / 10);
    }
    var d := Digits(n)[|Digits(n)| - 1];
    assert Zeros(zeros) + Digits(n) == front + [d];
    OneMoreDigit(front, d);
  }

  lemma LastDigit(n: nat)
    ensures var d := Digits(n)[|Digits(n)| - 1];
            IsDigit(d) && d as int == '0' as int + n % 10 && Digits(n) == (if n < 10 then "" else Digits(n / 10)) + [d]
  {
  }

  lemma OneMoreDigit(s: string, d: char)
    requires AllDigits(s) && IsDigit(d)
    ensures AllDigits(s + [d]) && Number(s + [d]) == 10 * Number(s) + (d as int - '0' as int)
  {
    assert (s + [d])[..|s|] == s;
  }

  lemma {:induction false} ZerosAreZero(zeros: nat)
    ensures AllDigits(Zeros(zeros)) && Number(Zeros(zeros)) == 0
  {
    if zeros > 0 {
      ZerosAreZero(zeros - 1);
      assert Zeros(zeros)[..zeros - 1] == Zeros(zeros - 1);
    }
  }

  lemma ParsesTo(body: string, tail: string, id: nat)
    requires '.' !in body && tail != "" && ParseInt(body) == Some(id) && id > 0
    ensures ParseKeyId(PREFIX + body + "." + tail) == Some(id)
  {
    hide ParseInt, IndexOf;
    var secret := PREFIX + body + "." + tail;
    var rest := secret[|PREFIX|..];
    assert rest == body + "." + tail;
    FirstDot(body, tail);
    assert rest[..|body|] == body;
    assert body != "" by { EmptyIsNoNumber(); }
  }

  lemma EmptyIsNoNumber()
    ensures ParseInt("") == None
  {
  }

  lemma DigitsParse(id: nat)
    requires id <= MAX_INT64
    ensures ParseInt(Digits(id)) == Some(id) && '.' !in Digits(id)
  {
    NumberOfDigits(id);
    hide Digits, Number;
    assert Digits(id)[0] in Digits(id);
  }

  /** Every id a row can have, printed with any tail, parses back to itself. */
  lemma PrintedParses(id: nat, tail: string)
    requires 1 <= id <= MAX_INT64 && tail != ""
    ensures ParseKeyId(Format(id, tail)) == Some(id)
  {
    DigitsParse(id);
    ParsesTo(Digits(id), tail, id);
  }

  /** Printing what was parsed and parsing again gives the same id, for every accepted text. */
  lemma ParsePrintParse(secret: string, tail: string)
    requires ParseKeyId(secret).Some? && tail != ""
    ensures ParseKeyId(Format(ParseKeyId(secret).value, tail)) == ParseKeyId(secret)
  {
    PrintedParses(ParseKeyId(secret).value, tail);
  }

  /** Two keys with the same text are the same key. */
  lemma FormatInjective(i: nat, t: string, j: nat, u: string)
    requires 1 <= i <= MAX_INT64 && 1 <= j <= MAX_INT64 && t != "" && u != ""
    requires Format(i, t) == Format(j, u)
    ensures i == j && t == u
  {
    PrintedParses(i, t);
    PrintedParses(j, u);
    var n := |PREFIX + Digits(i) + "."|;
    assert t == Format(i, t)[n..] && u == Format(j, u)[n..];
  }
}
