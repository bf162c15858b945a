/** The parser reads back what serialize writes. */
module JsonRoundTrip {
  import opened Options
  import opened Json

  // ---- strings

  lemma HexDigitValue(d: int)
    requires 0 <= d < 16
    ensures HexValue(HexDigit(d)) == d
  {
  }

  lemma FourHexDigits(a: char, b: char, c: char, d: char, more: string)
    requires HexValue(a) == HexValue(b) == 0 && HexValue(c) >= 0 && HexValue(d) >= 0
    ensures HexDigits([a, b, c, d] + more, 4, 0) == Parsed(16 * HexValue(c) + HexValue(d), more)
  {
    hide HexDigits, HexValue;
    var u := 16 * HexValue(c) + HexValue(d);
    OneHexDigit(d, more, 1, HexValue(c));
    OneHexDigit(c, [d] + more, 2, 0);
    assert [c, d] + more == [c] + ([d] + more);
    OneHexDigit(b, [c, d] + more, 3, 0);
    assert [b, c, d] + more == [b] + ([c, d] + more);
    OneHexDigit(a, [b, c, d] + more, 4, 0);
    assert [a, b, c, d] + more == [a] + ([b, c, d] + more);
    NoHexDigit(more, u);
  }

  lemma NoHexDigit(more: string, u: nat)
    ensures HexDigits(more, 0, u) == Parsed(u, more)
  {
  }

  lemma OneHexDigit(a: char, more: string, k: nat, u: nat)
    requires k > 0 && HexValue(a) >= 0
    ensures HexDigits([a] + more, k, u) == HexDigits(more, k - 1, 16 * u + HexValue(a))
  {
    assert ([a] + more)[1..] == more;
  }

  lemma EscapedBack(c: char, more: string, out: string)
    ensures ParseString(Escaped(c) + more, out) == ParseString(more, out + [c])
  {
    var s := Escaped(c) + more;
    if |Escaped(c)| == 1 {
      assert s[1..] == more;
    } else if |Escaped(c)| == 2 {
      assert s[2..] == more;
    } else {
      var x, y := HexDigit(c as int / 16), HexDigit(c as int % 16);
      HexDigitValue(c as int / 16);
      HexDigitValue(c as int % 16);
      FourHexDigits('0', '0', x, y, more);
      assert s[2..] == ['0', '0', x, y] + more;
      assert Codepoint(s[2..]) == Parsed([c], more);
    }
  }

  lemma {:induction false} StringBack(s: string, out: string, rest: string)
    ensures ParseString(EscapedAll(s) + "\"" + rest, out) == Parsed(out + s, rest)
    decreases |s|
  {
    hide Escaped;
    if |s| == 0 {
      assert ("\"" + rest)[1..] == rest;
      assert EscapedAll(s) + "\"" + rest == "\"" + rest && out + s == out;
    } else {
      var more := EscapedAll(s[1..]) + "\"" + rest;
      assert EscapedAll(s) + "\"" + rest == Escaped(s[0]) + more;
      EscapedBack(s[0], more, out);
      StringBack(s[1..], out + [s[0]], rest);
      assert out + [s[0]] + s[1..] == out + s;
    }
  }

  // ---- code points

  /** The code point that a UTF-8 sequence encodes. */
  function DecodeUtf8(b: string): int {
    if |b| == 1 then b[0] as int
    else if |b| == 2 then (b[0] as int - 0xc0) * 0x40 + (b[1] as int - 0x80)
    else if |b| == 3 then (b[0] as int - 0xe0) * 0x1000 + (b[1] as int - 0x80) * 0x40 + (b[2] as int - 0x80)
    else if |b| == 4 then
      (b[0] as int - 0xf0) * 0x40000 + (b[1] as int - 0x80) * 0x1000 + (b[2] as int - 0x80) * 0x40
        + (b[3] as int - 0x80)
    else -1
  }

  /** The bytes encode the code point, in the shortest form, with the marks of their places. */
  lemma Utf8Encodes(u: nat)
    requires u < 0x110000
    ensures DecodeUtf8(Utf8(u)) == u
    ensures |Utf8(u)| == if u < 0x80 then 1 else if u < 0x800 then 2 else if u < 0x10000 then 3 else 4
    ensures forall i :: 1 <= i < |Utf8(u)| ==> 0x80 <= Utf8(u)[i] as int < 0xc0
    ensures var lead := Utf8(u)[0] as int;
            if u < 0x80 then lead < 0x80 else if u < 0x800 then 0xc0 <= lead < 0xe0
            else if u < 0x10000 then 0xe0 <= lead < 0xf0 else 0xf0 <= lead < 0xf8
  {
    assert u / 0x40 == u / 0x1000 * 0x40 + u / 0x40 % 0x40;
    assert u / 0x1000 == u / 0x40000 * 0x40 + u / 0x1000 % 0x40;
  }

  // ---- numbers

  /** The text of the number is numeric, begins like a number, and denotes it. */
  predicate PrintsBack<N(==)>(nums: Numbers<N>, n: N) {
    var t := SkipSpace(nums.show(n));
    && |t| > 0 && ('0' <= t[0] <= '9' || t[0] == '-')
    && NumericLength(t) == |t|
    && nums.read(t) == Some(n)
  }

  /** The numbers in the value print back. */
  predicate Printable<N(==)>(nums: Numbers<N>, v: Value<N>) {
    match v
    case Num(n) => PrintsBack(nums, n)
    case Arr(items) => forall i :: 0 <= i < |items| ==> Printable(nums, items[i])
    case Obj(members) => forall i :: 0 <= i < |members| ==> Printable(nums, members[i].value)
    case _ => true
  }

  lemma {:induction false} SkipSpaceFront(s: string, more: string)
    requires |SkipSpace(s)| > 0
    ensures SkipSpace(s + more) == SkipSpace(s) + more
  {
    if |s| > 0 && IsSpace(s[0]) {
      assert (s + more)[1..] == s[1..] + more;
      SkipSpaceFront(s[1..], more);
    }
  }

  lemma {:induction false} NumericFront(s: string, more: string)
    requires NumericLength(s) == |s| && (|more| > 0 ==> !IsNumeric(more[0]))
    ensures NumericLength(s + more) == |s|
  {
    if |s| > 0 {
      assert (s + more)[1..] == s[1..] + more;
      NumericFront(s[1..], more);
    }
  }

  /** A number comes back exactly when its text denotes it. */
  lemma NumberBack<N>(nums: Numbers<N>, n: N)
    ensures Parse(nums, nums.show(n)) == Parsed(Num(n), "") <==> PrintsBack(nums, n)
  {
    var t := SkipSpace(nums.show(n));
    if |t| > 0 {
      var k := NumericLength(t);
      if k == |t| {
        assert t[..k] == t;
      } else {
        assert |t[k..]| > 0;
      }
    }
  }

  /** What is printed for an infinity, or for what is not a number, does not come back. */
  lemma NotFinite<N>(nums: Numbers<N>, n: N)
    requires nums.show(n) in {"inf", "-inf", "nan", "-nan"}
    ensures !PrintsBack(nums, n) && Parse(nums, nums.show(n)) != Parsed(Num(n), "")
  {
    NumberBack(nums, n);
    var t := nums.show(n);
    assert SkipSpace(t) == t;
    if t[0] == '-' {
      assert !IsNumeric(t[1]);
      assert NumericLength(t[1..]) == 0;
    }
  }

  lemma NumberFront<N>(nums: Numbers<N>, n: N, rest: string)
    requires PrintsBack(nums, n) && (|rest| > 0 ==> !IsNumeric(rest[0]))
    ensures Parse(nums, nums.show(n) + rest) == Parsed(Num(n), rest)
  {
    var t := SkipSpace(nums.show(n));
    SkipSpaceFront(nums.show(n), rest);
    NumericFront(t, rest);
    assert (t + rest)[..|t|] == t && (t + rest)[|t|..] == rest;
  }

  // ---- values

  /** Text that cannot be read as more of the value. */
  predicate Ends<N>(v: Value<N>, rest: string) {
    v.Num? && |rest| > 0 ==> !IsNumeric(rest[0])
  }

  lemma {:induction false} SkipTwice(s: string)
    ensures SkipSpace(SkipSpace(s)) == SkipSpace(s)
  {
    if |s| > 0 && IsSpace(s[0]) {
      SkipTwice(s[1..]);
    }
  }

  /** White space before an item makes no difference. */
  lemma SkipBefore<N>(nums: Numbers<N>, s: string, out: seq<Value<N>>)
    ensures ParseItems(nums, SkipSpace(s), out) == ParseItems(nums, s, out)
  {
    hide ParseString, ParseNumber, ParseWord, Insert, ParseKey, Next, After;
    SkipTwice(s);
    assert Parse(nums, SkipSpace(s)) == Parse(nums, s);
  }

  lemma OpenArray<N>(nums: Numbers<N>, body: string)
    ensures Parse(nums, "[" + body) ==
      if Next(body, ']') then Parsed(Arr([]), After(body, ']'))
      else ParseItems(nums, After(body, ']'), [])
  {
    hide ParseString, ParseNumber, ParseWord, Insert, ParseKey, Next, After, ParseItems, ParseMembers;
    assert ("[" + body)[1..] == body;
  }

  lemma OpenObject<N>(nums: Numbers<N>, body: string)
    ensures Parse(nums, "{" + body) ==
      if Next(body, '}') then Parsed(Obj([]), After(body, '}'))
      else ParseMembers(nums, After(body, '}'), [])
  {
    hide ParseString, ParseNumber, ParseWord, Insert, ParseKey, Next, After, ParseItems, ParseMembers;
    assert ("{" + body)[1..] == body;
  }

  /** No value begins like the end of an array. */
  lemma NotTheEnd<N>(nums: Numbers<N>, v: Value<N>, rest: string)
    requires Printable(nums, v)
    ensures !Next(Serialize(nums, v) + rest, ']')
  {
    if v.Num? {
      SkipSpaceFront(nums.show(v.n), rest);
    }
  }

  lemma CommaFirst<N>(nums: Numbers<N>, items: seq<Value<N>>)
    requires |items| > 0
    ensures SerializeItems(nums, items, ",") == "," + SerializeItems(nums, items, "")
  {
    hide Serialize;
  }

  lemma MembersCommaFirst<N>(nums: Numbers<N>, members: seq<Member<N>>)
    requires |members| > 0
    ensures SerializeMembers(nums, members, ",") == "," + SerializeMembers(nums, members, "")
  {
    hide Serialize, Quoted;
  }

  /** What follows a value in an array. */
  lemma AfterItem(more: string, body: string, rest: string, close: char)
    requires close == ']' || close == '}'
    ensures more == "," + body ==> Next(more, ',') && After(more, ',') == body
    ensures more == [close] + rest
      ==> !Next(more, ',') && Next(After(more, ','), close) && After(After(more, ','), close) == rest
  {
    assert ("," + body)[1..] == body && ([close] + rest)[1..] == rest;
  }

  lemma Closes(rest: string, close: char)
    requires close == ']' || close == '}'
    ensures Next([close] + rest, close) && After([close] + rest, close) == rest
  {
    assert ([close] + rest)[1..] == rest;
  }

  lemma NotNext(s: string, c: char)
    ensures !Next(s, c) ==> After(s, c) == SkipSpace(s)
  {
  }

  lemma {:induction false} ValueBack<N>(nums: Numbers<N>, v: Value<N>, rest: string)
    requires WellFormed(v) && Printable(nums, v) && Ends(v, rest)
    ensures Parse(nums, Serialize(nums, v) + rest) == Parsed(v, rest)
    decreases v, 1
  {
    hide Parse, PrintsBack, Quoted;
    match v
    case Null => NullBack(nums, rest);
    case Bool(b) =>
      TrueBack(nums, rest);
      FalseBack(nums, rest);
    case Num(n) => NumberFront(nums, n, rest);
    case Str(s) => StrBack(nums, s, rest);
    case Arr(items) => ArrayBack(nums, v, rest);
    case Obj(members) => ObjectBack(nums, v, rest);
  }

  lemma NullBack<N>(nums: Numbers<N>, rest: string)
    ensures Parse(nums, "null" + rest) == Parsed(Null, rest)
  {
    hide ParseString, ParseNumber, ParseItems, ParseMembers, Next, After;
    WordBack('n', "ull", rest);
    assert "null" + rest == ['n'] + ("ull" + rest);
  }

  lemma TrueBack<N>(nums: Numbers<N>, rest: string)
    ensures Parse(nums, "true" + rest) == Parsed(Bool(true), rest)
  {
    hide ParseString, ParseNumber, ParseItems, ParseMembers, Next, After;
    WordBack('t', "rue", rest);
    assert "true" + rest == ['t'] + ("rue" + rest);
  }

  lemma FalseBack<N>(nums: Numbers<N>, rest: string)
    ensures Parse(nums, "false" + rest) == Parsed(Bool(false), rest)
  {
    hide ParseString, ParseNumber, ParseItems, ParseMembers, Next, After;
    WordBack('f', "alse", rest);
    assert "false" + rest == ['f'] + ("alse" + rest);
  }

  lemma StrBack<N>(nums: Numbers<N>, s: string, rest: string)
    ensures Parse(nums, Quoted(s) + rest) == Parsed(Str(s), rest)
  {
    hide Quoted, ParseString;
    QuotedBack(s, rest);
  }

  lemma WordBack(c: char, word: string, rest: string)
    ensures word <= word + rest && (word + rest)[|word|..] == rest && ([c] + (word + rest))[1..] == word + rest
  {
  }

  lemma QuotedBack(s: string, rest: string)
    ensures |Quoted(s) + rest| > 0 && (Quoted(s) + rest)[0] == '\"'
    ensures ParseString((Quoted(s) + rest)[1..], "") == Parsed(s, rest)
  {
    hide EscapedAll, ParseString;
    StringBack(s, "", rest);
    assert (Quoted(s) + rest)[1..] == EscapedAll(s) + "\"" + rest;
    assert "" + s == s;
  }

  lemma {:induction false} ArrayBack<N>(nums: Numbers<N>, v: Value<N>, rest: string)
    requires v.Arr? && WellFormed(v) && Printable(nums, v)
    ensures Parse(nums, Serialize(nums, v) + rest) == Parsed(v, rest)
    decreases v, 0
  {
    hide Parse, ParseItems, Next, After;
    var body := SerializeItems(nums, v.items, "") + ("]" + rest);
    assert Serialize(nums, v) + rest == "[" + body;
    OpenArray(nums, body);
    if |v.items| == 0 {
      assert body == [']'] + rest;
      Closes(rest, ']');
    } else {
      NotNext(body, ']');
      SkipBefore(nums, body, []);
      ItemsBack(nums, v.items, [], rest);
      assert [] + v.items == v.items;
    }
  }

  lemma {:induction false} ItemsBack<N>(nums: Numbers<N>, items: seq<Value<N>>, out: seq<Value<N>>, rest: string)
    requires |items| > 0 && forall i :: 0 <= i < |items| ==> WellFormed(items[i]) && Printable(nums, items[i])
    ensures !Next(SerializeItems(nums, items, "") + ("]" + rest), ']')
    ensures ParseItems(nums, SerializeItems(nums, items, "") + ("]" + rest), out) == Parsed(Arr(out + items), rest)
    decreases items, 0
  {
    hide Parse, Serialize, WellFormed, Printable, Next, After;
    var more := SerializeItems(nums, items[1..], ",") + ("]" + rest);
    var body := SerializeItems(nums, items[1..], "") + ("]" + rest);
    assert SerializeItems(nums, items, "") + ("]" + rest) == Serialize(nums, items[0]) + more;
    ItemEnds(nums, items[1..], rest, items[0]);
    NotTheEnd(nums, items[0], more);
    ValueBack(nums, items[0], more);
    AfterItem(more, body, rest, ']');
    if |items| == 1 {
      assert out + [items[0]] == out + items;
    } else {
      CommaFirst(nums, items[1..]);
      assert more == "," + body;
      ItemsBack(nums, items[1..], out + [items[0]], rest);
      assert out + [items[0]] + items[1..] == out + items;
    }
  }

  lemma ItemEnds<N>(nums: Numbers<N>, items: seq<Value<N>>, rest: string, v: Value<N>)
    ensures Ends(v, SerializeItems(nums, items, ",") + ("]" + rest))
    ensures |items| == 0 ==> SerializeItems(nums, items, ",") + ("]" + rest) == "]" + rest
  {
    hide Serialize;
  }

  // ---- objects

  lemma {:induction false} LessOnce(a: string, b: string)
    ensures Less(a, b) ==> a != b && !Less(b, a)
  {
    if |a| > 0 && |b| > 0 && a[0] == b[0] {
      LessOnce(a[1..], b[1..]);
    }
  }

  /** A key above all the others goes to the end. */
  lemma {:induction false} InsertLast<N>(o: seq<Member<N>>, key: string, v: Value<N>)
    requires forall i :: 0 <= i < |o| ==> Less(o[i].key, key)
    ensures Insert(o, key, v) == o + [Member(key, v)]
  {
    if |o| > 0 {
      LessOnce(o[0].key, key);
      InsertLast(o[1..], key, v);
    }
  }

  lemma {:induction false} ObjectBack<N>(nums: Numbers<N>, v: Value<N>, rest: string)
    requires v.Obj? && WellFormed(v) && Printable(nums, v)
    ensures Parse(nums, Serialize(nums, v) + rest) == Parsed(v, rest)
    decreases v, 0
  {
    hide Parse, ParseMembers, Next, After;
    var body := SerializeMembers(nums, v.members, "") + ("}" + rest);
    assert Serialize(nums, v) + rest == "{" + body;
    OpenObject(nums, body);
    if |v.members| == 0 {
      assert body == ['}'] + rest;
      Closes(rest, '}');
    } else {
      NotNext(body, '}');
      MembersBack(nums, v.members, [], rest);
      assert [] + v.members == v.members;
    }
  }

  lemma KeyBack<N>(nums: Numbers<N>, key: string, more: string)
    ensures SkipSpace(Quoted(key) + ":" + more) == Quoted(key) + ":" + more && !Next(Quoted(key) + ":" + more, '}')
    ensures ParseKey(Quoted(key) + ":" + more) == Parsed(key, more)
  {
    var text := Quoted(key) + ":" + more;
    QuotedBack(key, ":" + more);
    assert text == Quoted(key) + (":" + more);
    assert (":" + more)[1..] == more;
  }

  lemma {:induction false} MembersBack<N>(nums: Numbers<N>, members: seq<Member<N>>, out: seq<Member<N>>, rest: string)
    requires |members| > 0 && Sorted(out + members)
    requires forall i :: 0 <= i < |members| ==> WellFormed(members[i].value) && Printable(nums, members[i].value)
    ensures var body := SerializeMembers(nums, members, "") + ("}" + rest); SkipSpace(body) == body && !Next(body, '}')
    ensures ParseMembers(nums, SerializeMembers(nums, members, "") + ("}" + rest), out)
      == Parsed(Obj(out + members), rest)
    decreases members, 0
  {
    hide Parse, Serialize, WellFormed, Printable, Quoted, ParseKey, Insert, Next, After;
    var m := members[0];
    var more := SerializeMembers(nums, members[1..], ",") + ("}" + rest);
    var body := SerializeMembers(nums, members[1..], "") + ("}" + rest);
    var tail := Serialize(nums, m.value) + more;
    assert SerializeMembers(nums, members, "") + ("}" + rest) == Quoted(m.key) + ":" + tail;
    KeyBack(nums, m.key, tail);
    MemberEnds(nums, members[1..], rest, m.value);
    ValueBack(nums, m.value, more);
    InsertNext(out, members);
    AfterItem(more, body, rest, '}');
    if |members| == 1 {
      assert out + [m] == out + members;
    } else {
      MembersCommaFirst(nums, members[1..]);
      assert more == "," + body;
      assert out + [m] + members[1..] == out + members;
      MembersBack(nums, members[1..], out + [m], rest);
    }
  }

  lemma InsertNext<N>(out: seq<Member<N>>, members: seq<Member<N>>)
    requires |members| > 0 && Sorted(out + members)
    ensures Insert(out, members[0].key, members[0].value) == out + [members[0]]
  {
    var all := out + members;
    assert forall i :: 0 <= i < |out| ==> all[i] == out[i] && Less(all[i].key, all[|out|].key);
    InsertLast(out, members[0].key, members[0].value);
  }

  lemma MemberEnds<N>(nums: Numbers<N>, members: seq<Member<N>>, rest: string, v: Value<N>)
    ensures Ends(v, SerializeMembers(nums, members, ",") + ("}" + rest))
    ensures |members| == 0 ==> SerializeMembers(nums, members, ",") + ("}" + rest) == "}" + rest
  {
    hide Serialize, Quoted;
  }

  // ---- the main results

  /** The text of a value whose numbers print back denotes that value, and all of it is read. */
  lemma RoundTrip<N>(nums: Numbers<N>, v: Value<N>)
    requires WellFormed(v) && Printable(nums, v)
    ensures Parse(nums, Serialize(nums, v)) == Parsed(v, "")
  {
    hide Parse, Serialize, WellFormed, Printable;
    ValueBack(nums, v, "");
    assert Serialize(nums, v) + "" == Serialize(nums, v);
  }

  /** Different values have different texts. */
  lemma TextsDiffer<N>(nums: Numbers<N>, v: Value<N>, w: Value<N>)
    requires WellFormed(v) && Printable(nums, v) && WellFormed(w) && Printable(nums, w)
    requires Serialize(nums, v) == Serialize(nums, w)
    ensures v == w
  {
    hide Parse, Serialize, WellFormed, Printable;
    RoundTrip(nums, v);
    RoundTrip(nums, w);
  }

  lemma {:induction false} LessTransitive(a: string, b: string, c: string)
    requires Less(a, b) && Less(b, c)
    ensures Less(a, c)
  {
    if |a| > 0 && a[0] == b[0] == c[0] {
      LessTransitive(a[1..], b[1..], c[1..]);
    }
  }

  lemma {:induction false} LessTotal(a: string, b: string)
    ensures Less(a, b) || a == b || Less(b, a)
  {
    if |a| > 0 && |b| > 0 && a[0] == b[0] {
      LessTotal(a[1..], b[1..]);
      assert a == [a[0]] + a[1..] && b == [b[0]] + b[1..];
    }
  }

  /** What `o.find(key)` finds. */
  function Lookup<N>(o: seq<Member<N>>, key: string): Option<Value<N>> {
    if |o| == 0 then None else if o[0].key == key then Some(o[0].value) else Lookup(o[1..], key)
  }

  lemma {:induction false} LookupInserted<N>(o: seq<Member<N>>, key: string, v: Value<N>, k: string)
    ensures Lookup(Insert(o, key, v), k) == if k == key then Some(v) else Lookup(o, k)
  {
    hide Less;
    var now := Insert(o, key, v);
    if |o| == 0 || Less(key, o[0].key) {
      assert now[1..] == o;
    } else if key == o[0].key {
      assert now[1..] == o[1..];
    } else {
      assert now[1..] == Insert(o[1..], key, v);
      LookupInserted(o[1..], key, v, k);
    }
  }

  predicate Above<N>(key: string, o: seq<Member<N>>) {
    forall i :: 0 <= i < |o| ==> Less(key, o[i].key)
  }

  lemma {:induction false} InsertAbove<N>(low: string, o: seq<Member<N>>, key: string, v: Value<N>)
    requires Above(low, o) && Less(low, key)
    ensures Above(low, Insert(o, key, v))
  {
    hide Less;
    if |o| > 0 && !Less(key, o[0].key) && key != o[0].key {
      InsertAbove(low, o[1..], key, v);
    }
  }

  lemma AboveAll<N>(low: string, o: seq<Member<N>>)
    requires Sorted(o) && |o| > 0 && Less(low, o[0].key)
    ensures Above(low, o)
  {
    hide Less;
    forall i | 0 <= i < |o|
      ensures Less(low, o[i].key)
    {
      if i > 0 {
        LessTransitive(low, o[0].key, o[i].key);
      }
    }
  }

  /** Inserting keeps the keys rising. */
  lemma {:induction false} InsertSorted<N>(o: seq<Member<N>>, key: string, v: Value<N>)
    requires Sorted(o)
    ensures Sorted(Insert(o, key, v))
  {
    hide Less;
    if |o| > 0 && Less(key, o[0].key) {
      AboveAll(key, o);
    } else if |o| > 0 && key != o[0].key {
      LessTotal(key, o[0].key);
      InsertSorted(o[1..], key, v);
      InsertAbove(o[0].key, o[1..], key, v);
    }
  }

  predicate AllWellFormed<N>(o: seq<Member<N>>) {
    forall i :: 0 <= i < |o| ==> WellFormed(o[i].value)
  }

  lemma {:induction false} InsertWellFormed<N>(o: seq<Member<N>>, key: string, v: Value<N>)
    requires AllWellFormed(o) && WellFormed(v)
    ensures AllWellFormed(Insert(o, key, v))
  {
    hide Less, WellFormed;
    if |o| > 0 && !Less(key, o[0].key) && key != o[0].key {
      InsertWellFormed(o[1..], key, v);
    }
  }

  /** Whatever text is parsed, the objects in the value are maps. */
  lemma {:induction false} ParsedIsWellFormed<N>(nums: Numbers<N>, s: string)
    ensures Parse(nums, s).Parsed? ==> WellFormed(Parse(nums, s).value)
    decreases |s|, 0
  {
    hide ParseString, ParseItems, ParseMembers, Next, After;
    var t := SkipSpace(s);
    if |t| > 0 && t[0] == '[' {
      ItemsAreWellFormed(nums, After(t[1..], ']'), []);
    } else if |t| > 0 && t[0] == '{' {
      MembersAreWellFormed(nums, After(t[1..], '}'), []);
    }
  }

  lemma {:induction false} ItemsAreWellFormed<N>(nums: Numbers<N>, s: string, out: seq<Value<N>>)
    requires forall i :: 0 <= i < |out| ==> WellFormed(out[i])
    ensures ParseItems(nums, s, out).Parsed? ==> WellFormed(ParseItems(nums, s, out).value)
    decreases |s|, 1
  {
    hide Parse;
    ParsedIsWellFormed(nums, s);
    var p := Parse(nums, s);
    if p.Parsed? && Next(p.rest, ',') {
      ItemsAreWellFormed(nums, After(p.rest, ','), out + [p.value]);
    }
  }

  lemma {:induction false} MembersAreWellFormed<N>(nums: Numbers<N>, s: string, out: seq<Member<N>>)
    requires Sorted(out) && AllWellFormed(out)
    ensures ParseMembers(nums, s, out).Parsed? ==> WellFormed(ParseMembers(nums, s, out).value)
    decreases |s|, 1
  {
    hide Parse, ParseKey, Insert, Less;
    var k := ParseKey(s);
    if k.Parsed? {
      ParsedIsWellFormed(nums, k.rest);
      var p := Parse(nums, k.rest);
      if p.Parsed? {
        InsertSorted(out, k.value, p.value);
        InsertWellFormed(out, k.value, p.value);
        if Next(p.rest, ',') {
          MembersAreWellFormed(nums, After(p.rest, ','), Insert(out, k.value, p.value));
        }
      }
    }
  }
}
