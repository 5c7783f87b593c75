/** Field values as the manifest, a service row and the last-synced snapshot hold them, and their text forms. */
module Fields {
  import opened Common

  /** The fields the differ compares, in its order (server/src/services/manifest/ManifestDiffer.ts). */
  datatype Field =
    | Name | HealthEndpoint | Description | MetricsEndpoint | PollIntervalMs | SchemaConfig | HealthEndpointFormat

  const SYNCABLE_FIELDS: seq<Field> :=
    [Name, HealthEndpoint, Description, MetricsEndpoint, PollIntervalMs, SchemaConfig, HealthEndpointFormat]

  /** A JavaScript value; an object is known by its JSON text. */
  datatype FieldValue = Undefined | Null | Str(text: string) | Num(number: int) | Obj(json: string)

  /** One value for each field; `Undefined` where the object lacks it. */
  datatype Record = Record(
    name: FieldValue, healthEndpoint: FieldValue, description: FieldValue, metricsEndpoint: FieldValue,
    pollIntervalMs: FieldValue, schemaConfig: FieldValue, healthEndpointFormat: FieldValue)
  {
    function Get(f: Field): FieldValue {
      match f
      case Name => name
      case HealthEndpoint => healthEndpoint
      case Description => description
      case MetricsEndpoint => metricsEndpoint
      case PollIntervalMs => pollIntervalMs
      case SchemaConfig => schemaConfig
      case HealthEndpointFormat => healthEndpointFormat
    }

    /** The record with the fields of `input` replaced. */
    function Patched(input: map<Field, FieldValue>): Record {
      Record(
        if Name in input then input[Name] else name,
        if HealthEndpoint in input then input[HealthEndpoint] else healthEndpoint,
        if Description in input then input[Description] else description,
        if MetricsEndpoint in input then input[MetricsEndpoint] else metricsEndpoint,
        if PollIntervalMs in input then input[PollIntervalMs] else pollIntervalMs,
        if SchemaConfig in input then input[SchemaConfig] else schemaConfig,
        if HealthEndpointFormat in input then input[HealthEndpointFormat] else healthEndpointFormat)
    }
  }

  const NO_FIELDS := Record(Undefined, Undefined, Undefined, Undefined, Undefined, Undefined, Undefined)

  lemma GetPatched(r: Record, input: map<Field, FieldValue>, f: Field)
    ensures r.Patched(input).Get(f) == if f in input then input[f] else r.Get(f)
  {
  }

  /** Each field is read from the part of its name. */
  lemma FieldsByName(r: Record)
    ensures r.Get(Name) == r.name && r.Get(HealthEndpoint) == r.healthEndpoint && r.Get(Description) == r.description
    ensures r.Get(MetricsEndpoint) == r.metricsEndpoint && r.Get(PollIntervalMs) == r.pollIntervalMs
    ensures r.Get(SchemaConfig) == r.schemaConfig && r.Get(HealthEndpointFormat) == r.healthEndpointFormat
  {
  }

  lemma EveryFieldListed(f: Field)
    ensures f in SYNCABLE_FIELDS
  {
    assert f == SYNCABLE_FIELDS[match f
      case Name => 0
      case HealthEndpoint => 1
      case Description => 2
      case MetricsEndpoint => 3
      case PollIntervalMs => 4
      case SchemaConfig => 5
      case HealthEndpointFormat => 6];
  }

  // ---------------------------------------------------------------------------
  // Decimal text
  // ---------------------------------------------------------------------------

  function Digit(d: nat): char
    requires d < 10
  {
    "0123456789"[d]
  }

  function DigitValue(c: char): (d: nat)
    requires IsDigit(c)
    ensures d < 10
  {
    (c as int) - ('0' as int)
  }

  function Digits(n: nat): (s: string)
    ensures s != []
  {
    if n < 10 then [Digit(n)] else Digits(n / 10) + [Digit(n % 10)]
  }

  /** `String(n)` of an integer. */
  function Decimal(n: int): string {
    if n < 0 then "-" + Digits(-n) else Digits(n)
  }

  predicate IsBlank(c: char) {
    || c == ' ' || '\t' <= c <= '\r' || c == '\U{A0}' || c == '\U{1680}' || '\U{2000}' <= c <= '\U{200A}'
    || c == '\U{2028}' || c == '\U{2029}' || c == '\U{202F}' || c == '\U{205F}' || c == '\U{3000}' || c == '\U{FEFF}'
  }

  function SkipBlanks(s: string): string {
    if s != [] && IsBlank(s[0]) then SkipBlanks(s[1..]) else s
  }

  /** The leading digits. */
  function DigitPrefix(s: string): string {
    if s != [] && IsDigit(s[0]) then [s[0]] + DigitPrefix(s[1..]) else []
  }

  function Value(digits: string): nat
    requires forall c :: c in digits ==> IsDigit(c)
  {
    if digits == [] then 0 else 10 * Value(digits[..|digits| - 1]) + DigitValue(digits[|digits| - 1])
  }

  lemma {:induction false} DigitPrefixIsDigits(s: string)
    ensures forall c :: c in DigitPrefix(s) ==> IsDigit(c)
  {
    if s != [] && IsDigit(s[0]) {
      DigitPrefixIsDigits(s[1..]);
    }
  }

  /** `parseInt(s, 10)`: blanks, a sign, then digits; what follows is ignored, and `NaN` is `None`. */
  function ParseInt(s: string): Option<int> {
    var t := SkipBlanks(s);
    var negative := t != [] && t[0] == '-';
    var digits := DigitPrefix(if t != [] && (t[0] == '-' || t[0] == '+') then t[1..] else t);
    DigitPrefixIsDigits(if t != [] && (t[0] == '-' || t[0] == '+') then t[1..] else t);
    var magnitude: int := Value(digits);
    if digits == [] then None else Some(if negative then -magnitude else magnitude)
  }

  lemma {:induction false} PrefixOfDigits(s: string)
    requires forall c :: c in s ==> IsDigit(c)
    ensures DigitPrefix(s) == s
  {
    if s != [] {
      PrefixOfDigits(s[1..]);
      assert s == [s[0]] + s[1..];
    }
  }

  lemma {:induction false} DigitsHaveValue(n: nat)
    ensures forall c :: c in Digits(n) ==> IsDigit(c)
    ensures Value(Digits(n)) == n
  {
    if n >= 10 {
      DigitsHaveValue(n / 10);
      assert Digits(n)[..|Digits(n)| - 1] == Digits(n / 10);
    } else {
      assert Digits(n)[..0] == [];
    }
  }

  /** Printed digits have no leading zero, but zero itself is one. */
  lemma {:induction false} NoLeadingZero(n: nat)
    ensures Digits(n)[0] == '0' <==> n == 0
    ensures n == 0 ==> Digits(n) == "0"
  {
    if n >= 10 {
      NoLeadingZero(n / 10);
    }
  }

  lemma DigitsAreNotBlank(c: char)
    requires IsDigit(c) || c == '-'
    ensures !IsBlank(c) && (IsDigit(c) ==> c != '-' && c != '+')
  {
  }

  /** Reading the text of an integer gives it back. */
  lemma ParseIntUndoesDecimal(n: int)
    ensures ParseInt(Decimal(n)) == Some(n)
  {
    hide IsBlank, IsDigit, Digits, Value, DigitPrefix;
    var digits := Digits(if n < 0 then -n else n);
    DigitsHaveValue(if n < 0 then -n else n);
    PrefixOfDigits(digits);
    assert digits[0] in digits;
    DigitsAreNotBlank(digits[0]);
    DigitsAreNotBlank('-');
    if n < 0 {
      assert Decimal(n)[0] == '-' && Decimal(n)[1..] == digits;
    }
  }

  /** White space and line ends of ECMAScript (sections 12.2 and 12.3). */
  predicate IsWhiteSpace(c: char) {
    || c in ['\t', '\n', '\U{0B}', '\U{0C}', '\r', ' ', '\U{A0}', '\U{FEFF}', '\U{2028}', '\U{2029}']
    || c in ['\U{1680}', '\U{2000}', '\U{2001}', '\U{2002}', '\U{2003}', '\U{2004}', '\U{2005}', '\U{2006}']
    || c in ['\U{2007}', '\U{2008}', '\U{2009}', '\U{200A}', '\U{202F}', '\U{205F}', '\U{3000}']
  }

  lemma {:induction false} SkipsWhiteSpace(blanks: string, t: string)
    requires (forall c :: c in blanks ==> IsWhiteSpace(c)) && (t != "" ==> !IsWhiteSpace(t[0]))
    ensures SkipBlanks(blanks + t) == t
  {
    if blanks == "" {
      assert blanks + t == t;
    } else {
      assert blanks[0] in blanks;
      SkipsWhiteSpace(blanks[1..], t);
      assert (blanks + t)[1..] == blanks[1..] + t;
    }
  }

  lemma {:induction false} PrefixEnds(digits: string, rest: string)
    requires (forall c :: c in digits ==> IsDigit(c)) && (rest != "" ==> !IsDigit(rest[0]))
    ensures DigitPrefix(digits + rest) == digits
  {
    if digits == "" {
      assert digits + rest == rest;
    } else {
      PrefixEnds(digits[1..], rest);
      assert (digits + rest)[1..] == digits[1..] + rest;
    }
  }

  /** The text after the white space: a sign, digits and what follows them. */
  ghost predicate IsNumeral(sign: string, digits: string, rest: string) {
    && (sign == "" || sign == "+" || sign == "-") && (forall c :: c in digits ==> IsDigit(c))
    && (rest != "" ==> !IsDigit(rest[0]))
    && (sign == "" && digits == "" && rest != "" ==> !IsWhiteSpace(rest[0]) && rest[0] != '+' && rest[0] != '-')
  }

  lemma NumeralStarts(sign: string, digits: string, rest: string)
    requires IsNumeral(sign, digits, rest)
    ensures var t := sign + (digits + rest);
            && (t != "" ==> !IsWhiteSpace(t[0]))
            && (t != "" && t[0] == '-' <==> sign == "-") && (t != "" && t[0] == '+' <==> sign == "+")
            && (if sign == "" then t else t[1..]) == digits + rest
  {
    var t := sign + (digits + rest);
    if sign != "" {
      assert t[0] == sign[0] && t[1..] == digits + rest;
    } else {
      assert t == digits + rest;
      if digits != "" {
        assert t[0] == digits[0] && digits[0] in digits;
      }
    }
  }

  /** White space and one sign are skipped, digits are read, and whatever follows them is ignored. */
  lemma ParseIntReads(blanks: string, sign: string, digits: string, rest: string)
    requires (forall c :: c in blanks ==> IsWhiteSpace(c)) && IsNumeral(sign, digits, rest)
    ensures ParseInt(blanks + (sign + (digits + rest))) ==
            if digits == "" then None else Some(if sign == "-" then -(Value(digits) as int) else Value(digits))
  {
    NumeralStarts(sign, digits, rest);
    SkipsWhiteSpace(blanks, sign + (digits + rest));
    PrefixEnds(digits, rest);
    hide SkipBlanks, DigitPrefix, Value, IsWhiteSpace;
  }

  // ---------------------------------------------------------------------------
  // JSON text
  // ---------------------------------------------------------------------------

  function EscapeChar(c: char): (s: string)
    ensures s != []
  {
    if c == '"' then "\\\""
    else if c == '\\' then "\\\\"
    else if c == '\n' then "\\n"
    else if c == '\r' then "\\r"
    else if c == '\t' then "\\t"
    else if c == '\U{08}' then "\\b"
    else if c == '\U{0C}' then "\\f"
    else if c < ' ' then "\\u00" + (if c as int < 16 then "0" else "1") + ["0123456789abcdef"[c as int % 16]]
    else [c]
  }

  function Escape(s: string): (t: string)
    ensures |t| >= |s|
  {
    if s == [] then [] else EscapeChar(s[0]) + Escape(s[1..])
  }

  /** `JSON.stringify` of a text. */
  function Quote(s: string): (t: string)
    ensures |t| >= |s| + 2
  {
    "\"" + Escape(s) + "\""
  }

  function HexValue(c: char): Option<nat> {
    if '0' <= c <= '9' then Some(c as int - '0' as int)
    else if 'a' <= c <= 'f' then Some(10 + c as int - 'a' as int)
    else if 'A' <= c <= 'F' then Some(10 + c as int - 'A' as int)
    else None
  }

  /** The character of four hexadecimal digits, if they are such and not half of a pair. */
  function FromHex(h: string): Option<char>
    requires |h| == 4
  {
    if HexValue(h[0]).None? || HexValue(h[1]).None? || HexValue(h[2]).None? || HexValue(h[3]).None? then None
    else
      var code := 4096 * HexValue(h[0]).value + 256 * HexValue(h[1]).value + 16 * HexValue(h[2]).value
                  + HexValue(h[3]).value;
      if code < 0xD800 || 0xE000 <= code < 0x10000 then Some(code as char) else None
  }

  /** The character that follows the backslash of a short escape (section 7 of RFC 8259). */
  function ShortEscape(c: char): Option<char> {
    match c
    case '"' => Some('"')
    case '\\' => Some('\\')
    case '/' => Some('/')
    case 'b' => Some('\U{08}')
    case 'f' => Some('\U{0C}')
    case 'n' => Some('\n')
    case 'r' => Some('\r')
    case 't' => Some('\t')
    case _ => None
  }

  function Prepend(c: Option<char>, s: Option<string>): Option<string> {
    if c.None? || s.None? then None else Some([c.value] + s.value)
  }

  /** What is between the quotes of a JSON string, read as RFC 8259 has it. */
  function ReadJson(t: string): Option<string> {
    if t == "" then Some("")
    else if t[0] == '"' || t[0] < ' ' then None
    else if t[0] != '\\' then Prepend(Some(t[0]), ReadJson(t[1..]))
    else if |t| < 2 then None
    else if t[1] != 'u' then Prepend(ShortEscape(t[1]), ReadJson(t[2..]))
    else if |t| < 6 then None
    else Prepend(FromHex(t[2..6]), ReadJson(t[6..]))
  }

  lemma HexOf(k: nat)
    requires k < 16
    ensures HexValue("0123456789abcdef"[k]) == Some(k)
  {
    var digits := "0123456789abcdef";
    if k < 10 {
      assert digits[k] == (k + '0' as int) as char;
    } else {
      assert digits[k] == (k - 10 + 'a' as int) as char;
    }
  }

  lemma ReadEscaped(c: char, t: string)
    ensures ReadJson(EscapeChar(c) + t) == Prepend(Some(c), ReadJson(t))
  {
    var e := EscapeChar(c);
    if c < ' ' && c !in ['\n', '\r', '\t', '\U{08}', '\U{0C}'] {
      HexOf(c as int % 16);
      assert (e + t)[2..6] == e[2..6] && (e + t)[6..] == t;
    } else if |e| == 2 {
      assert (e + t)[2..] == t;
    } else {
      assert (e + t)[1..] == t;
    }
  }

  lemma {:induction false} ReadUndoesEscape(s: string)
    ensures ReadJson(Escape(s)) == Some(s)
  {
    hide EscapeChar;
    if s != "" {
      ReadUndoesEscape(s[1..]);
      ReadEscaped(s[0], Escape(s[1..]));
      assert s == [s[0]] + s[1..];
    }
  }

  /** A printed text is quoted, and reading what is between the quotes gives it back. */
  lemma ReadUndoesQuote(s: string)
    ensures var q := Quote(s);
            |q| >= 2 && q[0] == '"' && q[|q| - 1] == '"' && ReadJson(q[1..|q| - 1]) == Some(s)
  {
    ReadUndoesEscape(s);
    assert Quote(s)[1..|Quote(s)| - 1] == Escape(s);
  }

  /** A text without quotes, backslashes and control characters is printed as it is. */
  lemma {:induction false} PlainIsPrinted(s: string)
    requires forall i :: 0 <= i < |s| ==> s[i] >= ' ' && s[i] != '"' && s[i] != '\\'
    ensures Escape(s) == s && Quote(s) == "\"" + s + "\""
  {
    if s != "" {
      PlainIsPrinted(s[1..]);
      assert s == [s[0]] + s[1..];
    }
  }

  // ---------------------------------------------------------------------------
  // Comparison text
  // ---------------------------------------------------------------------------

  /** Absent and null compare as the empty text, objects by their JSON, numbers by their digits. */
  function NormalizeToString(v: FieldValue): string {
    match v
    case Undefined => ""
    case Null => ""
    case Obj(json) => json
    case Num(n) => Decimal(n)
    case Str(s) => s
  }

  /** JavaScript truth of a value. */
  predicate IsTruthy(v: FieldValue) {
    match v
    case Undefined => false
    case Null => false
    case Str(s) => s != ""
    case Num(n) => n != 0
    case Obj(_) => true
  }
}
