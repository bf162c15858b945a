/** The forms of JSON text, character by character: what the printer writes and what the parser takes for what. */
module JsonForms {
  import opened Options
  import opened Json
  import opened JsonInput
  import opened JsonRoundTrip

  // ---- hexadecimal digits and code points

  /** The digits in both cases, and no other character. */
  lemma HexValues(d: nat, c: char)
    ensures d < 10 ==> HexValue(('0' as int + d) as char) == d
    ensures 10 <= d < 16 ==> HexValue(('A' as int + d - 10) as char) == d
    ensures 10 <= d < 16 ==> HexValue(('a' as int + d - 10) as char) == d
    ensures HexValue(c) >= 0 <==> c in "0123456789ABCDEFabcdef"
  {
  }

  /** Four digits of either case that denote `u`. */
  predicate Spells(s: string, u: nat) {
    && |s| == 4 && (forall i :: 0 <= i < 4 ==> HexValue(s[i]) >= 0)
    && u == 0x1000 * HexValue(s[0]) + 0x100 * HexValue(s[1]) + 0x10 * HexValue(s[2]) + HexValue(s[3])
  }

  lemma SpelledValue(s: string, u: nat, more: string)
    requires Spells(s, u)
    ensures HexDigits(s + more, 4, 0) == Parsed(u, more)
  {
    hide HexDigits, HexValue;
    var a, b, c, d := s[0], s[1], s[2], s[3];
    var x, y, z := HexValue(a), 16 * HexValue(a) + HexValue(b), 16 * (16 * HexValue(a) + HexValue(b)) + HexValue(c);
    assert s + more == [a] + ([b, c, d] + more);
    OneHexDigit(a, [b, c, d] + more, 4, 0);
    assert [b, c, d] + more == [b] + ([c, d] + more);
    OneHexDigit(b, [c, d] + more, 3, x);
    assert [c, d] + more == [c] + ([d] + more);
    OneHexDigit(c, [d] + more, 2, y);
    OneHexDigit(d, more, 1, z);
    NoHexDigit(more, u);
  }

  /** However its digits are spelled, a code point is read as its bytes in UTF-8, from one escape or from two. */
  lemma CodepointRead(u: nat, s: string, t: string, more: string)
    requires u < 0x110000 && !(0xd800 <= u < 0xe000)
    ensures u < 0x10000 && Spells(s, u) ==> Codepoint(s + more) == Parsed(Utf8(u), more)
    ensures u >= 0x10000 && Spells(s, 0xd800 + (u - 0x10000) / 0x400) && Spells(t, 0xdc00 + u % 0x400) ==>
              Codepoint(s + ("\\u" + t + more)) == Parsed(Utf8(u), more)
  {
    hide HexDigits, Spells, Utf8;
    if u < 0x10000 && Spells(s, u) {
      SpelledValue(s, u, more);
    }
    var high, low := 0xd800 + (u - 0x10000) / 0x400, 0xdc00 + u % 0x400;
    if u >= 0x10000 && Spells(s, high) && Spells(t, low) {
      var tail := "\\u" + t + more;
      SpelledValue(s, high, tail);
      assert tail[2..] == t + more;
      SpelledValue(t, low, more);
      assert Surrogates(high, low) == u;
    }
  }

  /** A low surrogate alone is refused, and so is a high one that no low one follows. */
  lemma LoneSurrogate(u: nat, s: string, more: string)
    requires Spells(s, u) && 0xd800 <= u < 0xe000
    requires u < 0xdc00 ==> !("\\u" <= more)
    ensures Codepoint(s + more).Failed?
  {
    hide HexDigits, Spells, Utf8;
    SpelledValue(s, u, more);
    if |more| >= 2 && more[0] == '\\' && more[1] == 'u' {
      assert more[..2] == "\\u";
    }
  }

  // ---- strings

  lemma OneEscape(e: char, more: string, out: string)
    requires e != 'u'
    ensures ParseString("\\" + [e] + more, out)
         == if Unescaped(e).Some? then ParseString(more, out + [Unescaped(e).value]) else Failed
  {
    var s := "\\" + [e] + more;
    assert s[2..] == more;
  }

  /** The escapes of one letter, as they are read; every other one is refused. */
  lemma EscapesRead(e: char, more: string, out: string)
    ensures e in {'"', '\\', '/'} ==> ParseString("\\" + [e] + more, out) == ParseString(more, out + [e])
    ensures e == 'b' ==> ParseString("\\" + [e] + more, out) == ParseString(more, out + [0x08 as char])
    ensures e == 'f' ==> ParseString("\\" + [e] + more, out) == ParseString(more, out + [0x0c as char])
    ensures e == 'n' ==> ParseString("\\" + [e] + more, out) == ParseString(more, out + [0x0a as char])
    ensures e == 'r' ==> ParseString("\\" + [e] + more, out) == ParseString(more, out + [0x0d as char])
    ensures e == 't' ==> ParseString("\\" + [e] + more, out) == ParseString(more, out + [0x09 as char])
    ensures e !in "\"\\/bfnrtu" ==> ParseString("\\" + [e] + more, out).Failed?
  {
    hide ParseString;
    if e != 'u' {
      OneEscape(e, more, out);
    }
  }

  /** Every other character stands for itself, but a control character is refused, and the quote ends the string. */
  lemma PlainRead(c: char, more: string, out: string)
    requires c != '\\'
    ensures ParseString([c] + more, out)
         == if c == '"' then Parsed(out, more) else if c < 0x20 as char then Failed else ParseString(more, out + [c])
  {
    assert ([c] + more)[1..] == more;
  }

  /** What is written for a character: the short escapes, six characters for the other control characters, and the
      character itself otherwise. */
  lemma EscapesWritten(c: char)
    ensures EscapedAll(['"']) == "\\\"" && EscapedAll(['\\']) == "\\\\" && EscapedAll(['/']) == "\\/"
    ensures EscapedAll([0x08 as char]) == "\\b" && EscapedAll([0x0c as char]) == "\\f" && EscapedAll(['\n']) == "\\n"
    ensures EscapedAll(['\r']) == "\\r" && EscapedAll(['\t']) == "\\t"
    ensures c !in "\"\\/\n\r\t" && c != 0x08 as char && c != 0x0c as char ==>
              if c < 0x20 as char || c == 0x7f as char
              then |EscapedAll([c])| == 6 && EscapedAll([c])[..4] == "\\u00" && Spells(EscapedAll([c])[2..], c as nat)
                   && forall i :: 4 <= i < 6 ==> EscapedAll([c])[i] in "0123456789abcdef"
              else EscapedAll([c]) == [c]
  {
    OneEscaped('"');
    OneEscaped('\\');
    OneEscaped('/');
    OneEscaped(0x08 as char);
    OneEscaped(0x0c as char);
    OneEscaped('\n');
    OneEscaped('\r');
    OneEscaped('\t');
    OneEscaped(c);
    hide EscapedAll;
    if c < 0x20 as char || c == 0x7f as char {
      HexDigitValue(c as int / 16);
      HexDigitValue(c as int % 16);
    }
  }

  lemma OneEscaped(c: char)
    ensures EscapedAll([c]) == Escaped(c)
  {
    hide Escaped;
    assert EscapedAll([c]) == Escaped(c) + [];
  }

  /** A string is written character by character, between quotes. */
  lemma {:induction false} EscapedSum(s: string, t: string)
    ensures EscapedAll(s + t) == EscapedAll(s) + EscapedAll(t)
  {
    hide Escaped;
    if |s| > 0 {
      assert (s + t)[1..] == s[1..] + t;
      EscapedSum(s[1..], t);
    } else {
      assert s + t == t;
    }
  }

  // ---- values

  /** What is written for a value. */
  lemma ValueForms<N>(nums: Numbers<N>, s: string, n: N)
    ensures Serialize(nums, Null) == "null"
    ensures Serialize(nums, Bool(true)) == "true" && Serialize(nums, Bool(false)) == "false"
    ensures Serialize(nums, Num(n)) == nums.show(n)
    ensures Serialize(nums, Str(s)) == "\"" + EscapedAll(s) + "\""
    ensures Serialize(nums, Arr([])) == "[]" && Serialize(nums, Obj([])) == "{}"
  {
    assert SerializeItems(nums, [], "") == "" && SerializeMembers(nums, [], "") == "";
  }

  lemma {:induction false} ItemsSnoc<N>(nums: Numbers<N>, items: seq<Value<N>>, v: Value<N>, comma: string)
    ensures SerializeItems(nums, items + [v], comma)
         == SerializeItems(nums, items, comma) + (if |items| == 0 then comma else ",") + Serialize(nums, v)
    decreases |items|
  {
    hide Serialize;
    var all := items + [v];
    if |items| > 0 {
      assert all[1..] == items[1..] + [v];
      ItemsSnoc(nums, items[1..], v, ",");
    } else {
      assert all[1..] == [];
      assert SerializeItems(nums, [], ",") == "";
    }
  }

  /** One more item: `a` is what stands between the brackets. */
  lemma ArrayForm<N>(nums: Numbers<N>, items: seq<Value<N>>, v: Value<N>, a: string)
    requires Serialize(nums, Arr(items)) == "[" + a + "]"
    ensures Serialize(nums, Arr(items + [v])) == "[" + a + (if |items| == 0 then "" else ",") + Serialize(nums, v) + "]"
  {
    hide SerializeItems;
    ItemsSnoc(nums, items, v, "");
    Inner("[", a, SerializeItems(nums, items, ""), "]");
  }

  lemma Inner(open: string, a: string, b: string, close: string)
    requires open + a + close == open + b + close && |open| == |close| == 1
    ensures a == b
  {
    assert (open + a + close)[1..|open + a + close| - 1] == a;
    assert (open + b + close)[1..|open + b + close| - 1] == b;
  }

  lemma {:induction false} MembersSnoc<N>(nums: Numbers<N>, members: seq<Member<N>>, m: Member<N>, comma: string)
    ensures SerializeMembers(nums, members + [m], comma)
         == SerializeMembers(nums, members, comma) + (if |members| == 0 then comma else ",")
            + ("\"" + EscapedAll(m.key) + "\":" + Serialize(nums, m.value))
    decreases |members|
  {
    hide Serialize, EscapedAll;
    var all := members + [m];
    if |members| > 0 {
      assert all[1..] == members[1..] + [m];
      MembersSnoc(nums, members[1..], m, ",");
    } else {
      assert all[1..] == [];
      assert SerializeMembers(nums, [], ",") == "";
    }
  }

  lemma ObjectForm<N>(nums: Numbers<N>, members: seq<Member<N>>, m: Member<N>, a: string)
    requires Serialize(nums, Obj(members)) == "{" + a + "}"
    ensures Serialize(nums, Obj(members + [m]))
         == "{" + a + (if |members| == 0 then "" else ",")
            + ("\"" + EscapedAll(m.key) + "\":" + Serialize(nums, m.value)) + "}"
  {
    hide SerializeMembers, EscapedAll;
    MembersSnoc(nums, members, m, "");
    Inner("{", a, SerializeMembers(nums, members, ""), "}");
  }

  // ---- the parser

  /** White space is space, tab, line feed and carriage return, and it may stand before every value and every mark. */
  lemma SpaceSkipped<N>(nums: Numbers<N>, c: char, s: string, mark: char)
    ensures c in {' ', '\t', '\n', '\r'} ==>
              && SkipSpace([c] + s) == SkipSpace(s) && Parse(nums, [c] + s) == Parse(nums, s)
              && Next([c] + s, mark) == Next(s, mark) && After([c] + s, mark) == After(s, mark)
    ensures c !in {' ', '\t', '\n', '\r'} ==> SkipSpace([c] + s) == [c] + s && Next([c] + s, mark) == (c == mark)
  {
    hide ParseString, ParseNumber, ParseWord, ArrayBody, ObjectBody;
    assert ([c] + s)[1..] == s;
  }

  /** The characters of numbers, and the ones that a value can begin with. */
  lemma ValueBegins<N>(nums: Numbers<N>, c: char, s: string)
    ensures IsNumeric(c) <==> c in "0123456789+-.eE"
    ensures c !in " \t\n\r" && c !in "nft\"[{-0123456789" ==> Parse(nums, [c] + s).Failed?
  {
    hide ParseString, ParseNumber, ParseWord, ArrayBody, ObjectBody;
  }

  /** `a` comes before `b` by the first character that differs, which is number `k`, or by its length. */
  predicate DiffersAt(a: string, b: string, k: nat) {
    k <= |a| && k < |b| && a[..k] == b[..k] && (k == |a| || a[k] < b[k])
  }

  /** The keys of an object are in the order of their characters. */
  lemma {:induction false} LessIsLexicographic(a: string, b: string)
    ensures Less(a, b) <==> exists k: nat :: DiffersAt(a, b, k)
  {
    if |a| > 0 && |b| > 0 && a[0] == b[0] {
      LessIsLexicographic(a[1..], b[1..]);
      if k: nat :| DiffersAt(a[1..], b[1..], k) {
        assert a[..k + 1] == [a[0]] + a[1..][..k] && b[..k + 1] == [b[0]] + b[1..][..k];
        assert DiffersAt(a, b, k + 1);
      }
      if k: nat :| DiffersAt(a, b, k) {
        assert a[1..][..k - 1] == a[..k][1..] && b[1..][..k - 1] == b[..k][1..];
        assert DiffersAt(a[1..], b[1..], k - 1);
      }
    } else if |b| > 0 && (|a| == 0 || a[0] < b[0]) {
      assert DiffersAt(a, b, 0);
    }
  }

  /** Lines end with a line feed. */
  lemma LinesCounted(s: string, c: char)
    ensures CountLines([]) == 0 && CountLines(s + [c]) == CountLines(s) + if c == 0x0a as char then 1 else 0
  {
    assert (s + [c])[..|s|] == s;
  }
}
