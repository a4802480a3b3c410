/** The fields an amount is typed in and shown in: yuan prices, compensated points, card limits. */
module AmountFields {
  import opened Options
  import opened Decimals

  const MAX_SAFE_INTEGER := 9007199254740991
  const MAX_CREDIT_LIMIT := 10000000

  /** What JavaScript's trim removes. */
  predicate IsSpace(c: char) {
    var n := c as int;
    9 <= n <= 13 || n == 32 || n == 0xA0 || n == 0x1680 || 0x2000 <= n <= 0x200A || n == 0x2028 || n == 0x2029
    || n == 0x202F || n == 0x205F || n == 0x3000 || n == 0xFEFF
  }

  /** The white space and line ends of the language: tab to return, blank, no-break blank, and the wider ones. */
  lemma SpaceExactly(c: char)
    ensures IsSpace(c) <==>
              c as int in {9, 10, 11, 12, 13, 32, 160, 5760, 8192, 8193, 8194, 8195, 8196, 8197, 8198, 8199, 8200,
                8201, 8202,
                           8232, 8233, 8239, 8287, 12288, 65279}
  {
  }

  function TrimStart(s: string): string {
    if s != "" && IsSpace(s[0]) then TrimStart(s[1..]) else s
  }

  function TrimEnd(s: string): string {
    if s != "" && IsSpace(s[|s| - 1]) then TrimEnd(s[..|s| - 1]) else s
  }

  function Trim(s: string): string { TrimEnd(TrimStart(s)) }

  /** White space all through. */
  predicate AllSpace(s: string) { forall i | 0 <= i < |s| :: IsSpace(s[i]) }

  /** What is trimmed off is white space, and no more of it is at either end. */
  lemma TrimExactly(s: string) returns (before: string, after: string)
    ensures s == before + Trim(s) + after && AllSpace(before) && AllSpace(after)
    ensures Trim(s) != "" ==> !IsSpace(Trim(s)[0]) && !IsSpace(Trim(s)[|Trim(s)| - 1])
  {
    before := StartTrimmed(s);
    after := EndTrimmed(TrimStart(s));
    if Trim(s) != "" { assert TrimStart(s)[0] == Trim(s)[0]; }
  }

  lemma SpaceBefore(c: char, tail: string, space: string, trimmed: string)
    requires tail == space + trimmed && AllSpace(space) && IsSpace(c)
    ensures [c] + tail == [c] + space + trimmed && AllSpace([c] + space)
  {
  }

  lemma SpaceBehind(c: char, front: string, space: string, trimmed: string)
    requires front == trimmed + space && AllSpace(space) && IsSpace(c)
    ensures front + [c] == trimmed + (space + [c]) && AllSpace(space + [c])
  {
  }

  lemma {:induction false} StartTrimmed(s: string) returns (before: string)
    ensures s == before + TrimStart(s) && AllSpace(before) && (TrimStart(s) != "" ==> !IsSpace(TrimStart(s)[0]))
  {
    if s != "" && IsSpace(s[0]) {
      var rest := StartTrimmed(s[1..]);
      before := [s[0]] + rest;
      SpaceBefore(s[0], s[1..], rest, TrimStart(s));
      assert s == [s[0]] + s[1..];
    } else {
      before := "";
    }
  }

  lemma {:induction false} EndTrimmed(s: string) returns (after: string)
    ensures s == TrimEnd(s) + after && AllSpace(after) && (TrimEnd(s) != "" ==> !IsSpace(TrimEnd(s)[|TrimEnd(s)| - 1]))
  {
    if s != "" && IsSpace(s[|s| - 1]) {
      var rest := EndTrimmed(s[..|s| - 1]);
      after := rest + [s[|s| - 1]];
      SpaceBehind(s[|s| - 1], s[..|s| - 1], rest, TrimEnd(s));
      assert s == s[..|s| - 1] + [s[|s| - 1]];
    } else {
      after := "";
    }
  }

  /** The commas, ASCII and full-width, are gone, and nothing else is, nor out of order. */
  lemma {:induction false} CommasExactly(a: string, c: char, b: string)
    ensures WithoutCommas("") == ""
    ensures WithoutCommas(a + [c] + b)
        == WithoutCommas(a) + (if c as int in {44, 65292} then "" else [c]) + WithoutCommas(b)
  {
    if a == "" {
      assert a + [c] + b == [c] + b;
      FirstComma(c, b);
    } else {
      var rest := a[1..] + [c] + b;
      assert a + [c] + b == [a[0]] + rest && a == [a[0]] + a[1..];
      CommasExactly(a[1..], c, b);
      FirstComma(a[0], rest);
      FirstComma(a[0], a[1..]);
    }
  }

  lemma FirstComma(c: char, rest: string)
    ensures WithoutCommas([c] + rest) == (if c as int in {44, 65292} then "" else [c]) + WithoutCommas(rest)
  {
    assert ([c] + rest)[1..] == rest;
  }

  /** Without ASCII and full-width commas. */
  function WithoutCommas(s: string): string {
    if s == "" then "" else (if s[0] == ',' || s[0] as int == 0xFF0C then "" else [s[0]]) + WithoutCommas(s[1..])
  }

  /** Yuan as typed, in micro-yuan; none when not accepted. */
  function YuanToMicro(text: string): Option<nat> {
    var value := Trim(text);
    if |value| > 32 || !IsDecimal(value) || Micro(value) > MAX_SAFE_INTEGER then None else Some(Micro(value))
  }

  /** Accepted exactly: a decimal text of at most 32 characters, below 2 to the 53rd. */
  lemma YuanExactly(text: string, n: nat)
    ensures YuanToMicro(text) == Some(n) <==>
              |Trim(text)| < 33 && IsDecimal(Trim(text)) && n == Micro(Trim(text)) && n < 9007199254740992
  {
  }

  function MicroToYuan(value: int): string {
    if 0 <= value <= MAX_SAFE_INTEGER then Print(value) else "\U{2014}"
  }

  function MicroToPoints(micro: nat): string { Print(micro) }

  function Negated(n: int): int { -n }

  /** Credits as billing writes them, perhaps negative; none when not a number. */
  function DecimalToMicro(text: string): Option<int> {
    var value := Trim(text);
    if IsDecimal(value) then Some(Micro(value))
    else if value != "" && value[0] == '-' && IsDecimal(value[1..]) then Some(Negated(Micro(value[1..])))
    else None
  }

  /** Accepted exactly: a decimal text, or one behind a sign. */
  lemma PointsExactly(text: string, n: int)
    ensures DecimalToMicro(text) == Some(n) <==>
              || (IsDecimal(Trim(text)) && n == Micro(Trim(text)))
              || exists t :: Trim(text) == "-" + t && IsDecimal(t) && n == 0 - Micro(t)
  {
    var value := Trim(text);
    if value != "" && value[0] == '-' {
      assert value == "-" + value[1..];
      NotDecimal(value);
    }
    if t :| value == "-" + t && IsDecimal(t) {
      assert value[1..] == t;
      NotDecimal(value);
    }
  }

  lemma NotDecimal(value: string)
    requires value != "" && value[0] == '-'
    ensures !IsDecimal(value)
  {
    if Whole(value) != "" { assert Whole(value)[0] == '-'; }
  }

  datatype Limit = Unlimited | AtMost(micro: nat)

  /** A limit as its field shows it: blank for none. */
  function LimitInput(limit: Limit): string {
    match limit
    case Unlimited => ""
    case AtMost(micro) => Print(micro)
  }

  /** A limit as typed; none when the server would not take it. */
  function ParseLimit(text: string): Option<Limit> {
    var value := WithoutCommas(Trim(text));
    if value == "" then Some(Unlimited)
    else if IsDecimal(value) && Micro(value) <= MAX_CREDIT_LIMIT * MICRO then Some(AtMost(Micro(value)))
    else None
  }

  /** Accepted exactly: nothing for no limit, or a decimal text up to ten million credits, commas apart. */
  lemma LimitExactly(text: string, limit: Limit)
    ensures ParseLimit(text) == Some(limit) <==>
              var value := WithoutCommas(Trim(text));
              match limit
              case Unlimited => value == ""
              case AtMost(micro) => value != "" && IsDecimal(value) && micro == Micro(value) && micro <= 10000000000000
  {
  }

  /** Only digits and dots: nothing a field would trim or drop. */
  predicate Plain(s: string) { forall i | 0 <= i < |s| :: IsDigit(s[i]) || s[i] == '.' }

  lemma {:induction false} PlainKept(s: string)
    requires Plain(s)
    ensures Trim(s) == s && WithoutCommas(s) == s
  {
    if s != "" {
      PlainKept(s[1..]);
      assert s == [s[0]] + s[1..];
    }
  }

  lemma PrintIsPlain(micro: nat)
    ensures Plain(Print(micro)) && Print(micro) != ""
  {
  }

  lemma PrintIsShort(micro: nat)
    requires micro <= MAX_SAFE_INTEGER
    ensures |Print(micro)| <= 17
  {
    assert Power10(10) == 10000000000;
    NatTextLength(micro / MICRO, 10);
    assert Power10(6) == MICRO;
    NatTextLength(micro % MICRO, 6);
  }

  /** Every safe amount of micro-yuan survives being shown and typed back. */
  lemma YuanRoundTrip(value: nat)
    requires value <= MAX_SAFE_INTEGER
    ensures YuanToMicro(MicroToYuan(value)) == Some(value)
  {
    PrintReads(value);
    PrintIsPlain(value);
    PlainKept(Print(value));
    PrintIsShort(value);
  }

  /** An accepted yuan text is shown again as typed, without superfluous zeros. */
  lemma YuanReprints(text: string)
    requires YuanToMicro(text).Some?
    ensures MicroToYuan(YuanToMicro(text).value) == Canonical(Trim(text))
  {
    ReadPrints(Trim(text));
  }

  /** The sign billing writes, then the amount, is read back exactly. */
  lemma PointsRoundTrip(micro: nat)
    ensures DecimalToMicro(MicroToPoints(micro)) == Some(micro)
    ensures DecimalToMicro("-" + MicroToPoints(micro)) == Some(Negated(micro))
  {
    PrintReads(micro);
    PrintIsPlain(micro);
    PlainKept(Print(micro));
    SignKept(Print(micro));
  }

  lemma SignKept(s: string)
    requires Plain(s) && s != ""
    ensures Trim("-" + s) == "-" + s && !IsDecimal("-" + s) && ("-" + s)[1..] == s
  {
    var signed := "-" + s;
    assert signed[|signed| - 1] == s[|s| - 1];
    assert Whole(signed)[0] == '-';
  }

  /** Every limit a card can have survives being shown and saved unchanged. */
  lemma LimitRoundTrip(limit: Limit)
    requires limit.AtMost? ==> limit.micro <= MAX_CREDIT_LIMIT * MICRO
    ensures ParseLimit(LimitInput(limit)) == Some(limit)
  {
    if limit.AtMost? {
      PrintReads(limit.micro);
      PrintIsPlain(limit.micro);
      PlainKept(Print(limit.micro));
    }
  }
}
