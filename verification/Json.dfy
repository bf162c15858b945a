/** JSON values of picojson, the text that serialize writes for them, and the values that a text denotes for the
    parser. A byte is a character; numbers are opaque. */
module Json {
  import opened Options

  /** The numbers, with the text that `to_str` prints for one, and what `strtod` makes of a whole text. */
  datatype Numbers<!N> = Numbers(show: N -> string, read: string -> Option<N>)

  /** An object is the list of its members in the order of its std::map. */
  datatype Value<+N> =
    | Null
    | Bool(b: bool)
    | Num(n: N)
    | Str(s: string)
    | Arr(items: seq<Value<N>>)
    | Obj(members: seq<Member<N>>)

  datatype Member<+N> = Member(key: string, value: Value<N>)

  // ---- std::map<std::string, value>

  predicate Less(a: string, b: string) {
    |b| > 0 && (|a| == 0 || a[0] < b[0] || (a[0] == b[0] && Less(a[1..], b[1..])))
  }

  /** `o[key]`, and the assignment of a value to it. */
  function Insert<N>(o: seq<Member<N>>, key: string, v: Value<N>): seq<Member<N>> {
    if |o| == 0 || Less(key, o[0].key) then [Member(key, v)] + o
    else if key == o[0].key then [Member(key, v)] + o[1..]
    else [o[0]] + Insert(o[1..], key, v)
  }

  predicate Sorted<N>(o: seq<Member<N>>) {
    forall i, j :: 0 <= i < j < |o| ==> Less(o[i].key, o[j].key)
  }

  /** Every object in the value is a map: its keys rise. */
  predicate WellFormed<N>(v: Value<N>) {
    match v
    case Arr(items) => forall i :: 0 <= i < |items| ==> WellFormed(items[i])
    case Obj(members) => Sorted(members) && forall i :: 0 <= i < |members| ==> WellFormed(members[i].value)
    case _ => true
  }

  // ---- serialize

  function HexDigit(d: int): char
    requires 0 <= d < 16
  {
    if d < 10 then (d + '0' as int) as char else (d - 10 + 'a' as int) as char
  }

  /** What serialize_str writes for a character. */
  function Escaped(c: char): string {
    if c == '\"' then "\\\""
    else if c == '\\' then "\\\\"
    else if c == '/' then "\\/"
    else if c == 8 as char then "\\b"
    else if c == 12 as char then "\\f"
    else if c == '\n' then "\\n"
    else if c == '\r' then "\\r"
    else if c == '\t' then "\\t"
    else if c < ' ' || c == 127 as char then "\\u00" + [HexDigit(c as int / 16), HexDigit(c as int % 16)]
    else [c]
  }

  function EscapedAll(s: string): string {
    if |s| == 0 then [] else Escaped(s[0]) + EscapedAll(s[1..])
  }

  function Quoted(s: string): string {
    "\"" + EscapedAll(s) + "\""
  }

  function Serialize<N>(nums: Numbers<N>, v: Value<N>): string {
    match v
    case Null => "null"
    case Bool(b) => if b then "true" else "false"
    case Num(n) => nums.show(n)
    case Str(s) => Quoted(s)
    case Arr(items) => "[" + SerializeItems(nums, items, "") + "]"
    case Obj(members) => "{" + SerializeMembers(nums, members, "") + "}"
  }

  /** The items, with `comma` before the first one and a comma before the others. */
  function SerializeItems<N>(nums: Numbers<N>, items: seq<Value<N>>, comma: string): string {
    if |items| == 0 then [] else comma + Serialize(nums, items[0]) + SerializeItems(nums, items[1..], ",")
  }

  function SerializeMembers<N>(nums: Numbers<N>, members: seq<Member<N>>, comma: string): string {
    if |members| == 0 then []
    else
      comma + Quoted(members[0].key) + ":" + Serialize(nums, members[0].value)
        + SerializeMembers(nums, members[1..], ",")
  }

  // ---- the parser

  /** A value, and the text behind it. */
  datatype Parsed<+T> = Parsed(value: T, rest: string) | Failed

  predicate IsSpace(c: char) {
    c == ' ' || c == '\t' || c == '\n' || c == '\r'
  }

  function SkipSpace(s: string): (r: string)
    ensures |r| <= |s|
  {
    if |s| > 0 && IsSpace(s[0]) then SkipSpace(s[1..]) else s
  }

  /** Whether `c` comes next after white space. */
  predicate Next(s: string, c: char) {
    var t := SkipSpace(s);
    |t| > 0 && t[0] == c
  }

  /** The text after the white space, and after `c` if that comes next. */
  function After(s: string, c: char): (r: string)
    ensures |r| <= |s| && (Next(s, c) ==> |r| < |s|)
  {
    if Next(s, c) then SkipSpace(s)[1..] else SkipSpace(s)
  }

  function HexValue(c: char): int {
    if '0' <= c <= '9' then c as int - '0' as int
    else if 'A' <= c <= 'F' then c as int - 'A' as int + 10
    else if 'a' <= c <= 'f' then c as int - 'a' as int + 10
    else -1
  }

  /** `k` hexadecimal digits, after digits that make `u`. */
  function HexDigits(s: string, k: nat, u: nat): (r: Parsed<nat>)
    ensures r.Parsed? ==> |r.rest| + k == |s|
  {
    if k == 0 then Parsed(u, s)
    else if |s| == 0 || HexValue(s[0]) < 0 then Failed
    else HexDigits(s[1..], k - 1, 16 * u + HexValue(s[0]))
  }

  /** The bytes of UTF-8 for a code point. */
  function Utf8(u: nat): (r: string)
    requires u < 0x110000
  {
    if u < 0x80 then [u as char]
    else if u < 0x800 then [(0xc0 + u / 0x40) as char, (0x80 + u % 0x40) as char]
    else if u < 0x10000 then
      [(0xe0 + u / 0x1000) as char, (0x80 + u / 0x40 % 0x40) as char, (0x80 + u % 0x40) as char]
    else
      [(0xf0 + u / 0x40000) as char, (0x80 + u / 0x1000 % 0x40) as char, (0x80 + u / 0x40 % 0x40) as char,
       (0x80 + u % 0x40) as char]
  }

  /** The code point of a surrogate pair. */
  function Surrogates(high: nat, low: nat): (u: nat)
    requires 0xd800 <= high < 0xdc00 <= low < 0xe000
    ensures 0x10000 <= u < 0x110000
  {
    (high - 0xd800) * 0x400 + (low - 0xdc00) + 0x10000
  }

  /** The bytes for an escape, after its `u`. */
  function Codepoint(s: string): (r: Parsed<string>)
    ensures r.Parsed? ==> |r.rest| < |s|
  {
    match HexDigits(s, 4, 0)
    case Failed => Failed
    case Parsed(u, rest) =>
      FourDigits(s, 4, 0);
      if 0xd800 <= u <= 0xdfff then
        if 0xdc00 <= u then Failed
        else if |rest| < 2 || rest[0] != '\\' || rest[1] != 'u' then Failed
        else
          match HexDigits(rest[2..], 4, 0)
          case Failed => Failed
          case Parsed(second, rest') =>
            if 0xdc00 <= second <= 0xdfff then Parsed(Utf8(Surrogates(u, second)), rest') else Failed
      else Parsed(Utf8(u), rest)
  }

  function Power16(k: nat): nat {
    if k == 0 then 1 else 16 * Power16(k - 1)
  }

  lemma OneDigit(u: nat, h: nat, p: nat)
    requires h < 16
    ensures u * (16 * p) <= (16 * u + h) * p && (16 * u + h + 1) * p <= (u + 1) * (16 * p)
  {
    assert (16 * u + h) * p == u * (16 * p) + h * p;
    assert (h + 1) * p <= 16 * p;
  }

  lemma {:induction false} FourDigits(s: string, k: nat, u: nat)
    ensures HexDigits(s, k, u).Parsed? ==> u * Power16(k) <= HexDigits(s, k, u).value < (u + 1) * Power16(k)
    ensures Power16(4) == 0x10000
  {
    if k > 0 && |s| > 0 && HexValue(s[0]) >= 0 {
      OneDigit(u, HexValue(s[0]), Power16(k - 1));
      FourDigits(s[1..], k - 1, 16 * u + HexValue(s[0]));
    }
  }

  /** The character that a one-letter escape stands for. */
  function Unescaped(c: char): Option<char> {
    match c
    case '\"' => Some('\"')
    case '\\' => Some('\\')
    case '/' => Some('/')
    case 'b' => Some(8 as char)
    case 'f' => Some(12 as char)
    case 'n' => Some('\n')
    case 'r' => Some('\r')
    case 't' => Some('\t')
    case _ => None
  }

  /** A string, after its opening quote; `out` is what has been read. */
  function ParseString(s: string, out: string): (r: Parsed<string>)
    ensures r.Parsed? ==> |r.rest| < |s|
    decreases |s|
  {
    if |s| == 0 || s[0] < ' ' then Failed
    else if s[0] == '"' then Parsed(out, s[1..])
    else if s[0] != '\\' then ParseString(s[1..], out + [s[0]])
    else if |s| == 1 then Failed
    else if s[1] == 'u' then
      match Codepoint(s[2..])
      case Failed => Failed
      case Parsed(bytes, rest) => ParseString(rest, out + bytes)
    else
      match Unescaped(s[1])
      case None => Failed
      case Some(c) => ParseString(s[2..], out + [c])
  }

  predicate IsNumeric(c: char) {
    '0' <= c <= '9' || c == '+' || c == '-' || c == '.' || c == 'e' || c == 'E'
  }

  /** The length of the numeric text at the start. */
  function NumericLength(s: string): (n: nat)
    ensures n <= |s|
  {
    if |s| > 0 && IsNumeric(s[0]) then 1 + NumericLength(s[1..]) else 0
  }

  function ParseNumber<N>(nums: Numbers<N>, s: string): (r: Parsed<Value<N>>)
    requires |s| > 0 && IsNumeric(s[0])
    ensures r.Parsed? ==> |r.rest| < |s|
  {
    var n := NumericLength(s);
    match nums.read(s[..n])
    case None => Failed
    case Some(x) => Parsed(Num(x), s[n..])
  }

  function ParseWord<N>(s: string, word: string, v: Value<N>): (r: Parsed<Value<N>>)
    ensures r.Parsed? ==> |r.rest| <= |s|
  {
    if word <= s then Parsed(v, s[|word|..]) else Failed
  }

  function Parse<N>(nums: Numbers<N>, s: string): (r: Parsed<Value<N>>)
    ensures r.Parsed? ==> |r.rest| < |s|
    decreases |s|, 0
  {
    var t := SkipSpace(s);
    if |t| == 0 then Failed
    else if t[0] == 'n' then ParseWord(t[1..], "ull", Null)
    else if t[0] == 'f' then ParseWord(t[1..], "alse", Bool(false))
    else if t[0] == 't' then ParseWord(t[1..], "rue", Bool(true))
    else if t[0] == '"' then
      match ParseString(t[1..], "")
      case Failed => Failed
      case Parsed(x, rest) => Parsed(Str(x), rest)
    else if t[0] == '[' then ArrayBody(nums, t[1..])
    else if t[0] == '{' then ObjectBody(nums, t[1..])
    else if '0' <= t[0] <= '9' || t[0] == '-' then ParseNumber(nums, t)
    else Failed
  }

  /** An array after its opening bracket. */
  function ArrayBody<N>(nums: Numbers<N>, s: string): (r: Parsed<Value<N>>)
    ensures r.Parsed? ==> |r.rest| < |s|
    decreases |s|, 2
  {
    if Next(s, ']') then Parsed(Arr([]), After(s, ']')) else ParseItems(nums, After(s, ']'), [])
  }

  /** An object after its opening brace. */
  function ObjectBody<N>(nums: Numbers<N>, s: string): (r: Parsed<Value<N>>)
    ensures r.Parsed? ==> |r.rest| < |s|
    decreases |s|, 2
  {
    if Next(s, '}') then Parsed(Obj([]), After(s, '}')) else ParseMembers(nums, After(s, '}'), [])
  }

  /** The items of an array, after the ones in `out`, and the closing bracket. */
  function ParseItems<N>(nums: Numbers<N>, s: string, out: seq<Value<N>>): (r: Parsed<Value<N>>)
    ensures r.Parsed? ==> |r.rest| < |s| && r.value.Arr?
    decreases |s|, 1
  {
    match Parse(nums, s)
    case Failed => Failed
    case Parsed(v, rest) =>
      if Next(rest, ',') then ParseItems(nums, After(rest, ','), out + [v])
      else if Next(After(rest, ','), ']') then Parsed(Arr(out + [v]), After(After(rest, ','), ']'))
      else Failed
  }

  /** The key of a member, and the colon. */
  function ParseKey(s: string): (r: Parsed<string>)
    ensures r.Parsed? ==> |r.rest| < |s|
  {
    if !Next(s, '"') then Failed
    else
      match ParseString(After(s, '"'), "")
      case Failed => Failed
      case Parsed(key, rest) => if Next(rest, ':') then Parsed(key, After(rest, ':')) else Failed
  }

  /** The members of an object, after the ones in `out`, and the closing brace. */
  function ParseMembers<N>(nums: Numbers<N>, s: string, out: seq<Member<N>>): (r: Parsed<Value<N>>)
    ensures r.Parsed? ==> |r.rest| < |s| && r.value.Obj?
    decreases |s|, 1
  {
    match ParseKey(s)
    case Failed => Failed
    case Parsed(key, s') =>
      match Parse(nums, s')
      case Failed => Failed
      case Parsed(v, rest) =>
        if Next(rest, ',') then ParseMembers(nums, After(rest, ','), Insert(out, key, v))
        else if Next(After(rest, ','), '}') then Parsed(Obj(Insert(out, key, v)), After(After(rest, ','), '}'))
        else Failed
  }
}
