/** The parser as it runs: an input with one character of push-back, and methods that consume it. */
module JsonInput {
  import opened Options
  import opened Json

  function CountLines(s: string): nat {
    if |s| == 0 then 0 else CountLines(s[..|s| - 1]) + if s[|s| - 1] == '\n' then 1 else 0
  }

  /** How far the text agrees with the pattern. */
  function Agreed(pattern: string, text: string): (n: nat)
    ensures n <= |pattern| && n <= |text| && pattern[..n] == text[..n]
    ensures n < |pattern| && n < |text| ==> pattern[n] != text[n]
  {
    if |pattern| == 0 || |text| == 0 || pattern[0] != text[0] then 0 else 1 + Agreed(pattern[1..], text[1..])
  }

  lemma AgreedIs(pattern: string, text: string, i: nat)
    requires i <= |pattern| && i <= |text| && pattern[..i] == text[..i]
    requires i < |pattern| && i < |text| ==> pattern[i] != text[i]
    ensures Agreed(pattern, text) == i
  {
  }

  /** class input */
  class Input {
    const text: string
    var cur: nat
    /** The last character read, or -1. */
    var lastCh: int
    var ungot: bool
    var line: nat

    ghost predicate Valid()
      reads this
    {
      && cur <= |text|
      && (lastCh == -1 || (cur > 0 && lastCh == text[cur - 1] as int))
      && (lastCh == -1 ==> !ungot && (cur == 0 || cur == |text|))
      && line == 1 + CountLines(text[..if cur == 0 then 0 else cur - 1])
    }

    /** What is still to be read. */
    ghost function Rest(): string
      requires Valid()
      reads this
    {
      text[if ungot then cur - 1 else cur..]
    }

    /** `ch` has just been read from `before`; at the end, it is -1. */
    ghost predicate Took(before: string, ch: int)
      reads this
    {
      && Valid() && !ungot && lastCh == ch
      && if |before| == 0 then ch == -1 && Rest() == "" else ch == before[0] as int && Rest() == before[1..]
    }

    constructor (s: string)
      ensures Valid() && text == s && Rest() == s && !ungot
    {
      text, cur, lastCh, ungot, line := s, 0, -1, false, 1;
    }

    /** The next character, or -1 at the end. */
    method Getc() returns (ch: int)
      requires Valid()
      modifies this
      ensures Took(old(Rest()), ch)
    {
      if ungot {
        ungot := false;
        return lastCh;
      }
      if cur == |text| {
        lastCh := -1;
        return -1;
      }
      if lastCh == '\n' as int {
        line := line + 1;
      }
      assert cur > 0 ==> text[..cur][..cur - 1] == text[..cur - 1];
      lastCh := text[cur] as int;
      cur := cur + 1;
      return lastCh;
    }

    /** Give the last character back. That nothing is given back twice, which the code asserts, is part of `Took`. */
    method Ungetc(ghost before: string)
      requires Took(before, lastCh)
      modifies this`ungot
      ensures Valid() && Rest() == before && ungot == (before != "")
    {
      if lastCh != -1 {
        ungot := true;
      }
    }

    method SkipWs()
      requires Valid()
      modifies this
      ensures Valid() && Rest() == SkipSpace(old(Rest()))
    {
      hide Valid, Rest;
      ghost var goal := SkipSpace(Rest());
      while true
        invariant Valid() && SkipSpace(Rest()) == goal
        decreases |Rest()|
      {
        ghost var before := Rest();
        var ch := Getc();
        if !(ch == ' ' as int || ch == '\t' as int || ch == '\n' as int || ch == '\r' as int) {
          Ungetc(before);
          break;
        }
      }
    }

    method Expect(c: char) returns (ok: bool)
      requires Valid()
      modifies this
      ensures Valid() && ok == Next(old(Rest()), c) && Rest() == After(old(Rest()), c) && (ok ==> !ungot)
    {
      hide Valid, Rest;
      SkipWs();
      ghost var before := Rest();
      var ch := Getc();
      if ch != c as int {
        Ungetc(before);
        return false;
      }
      return true;
    }

    /** match: what agrees with the pattern is consumed, also on failure. */
    method Match(pattern: string) returns (ok: bool)
      requires Valid() && |pattern| > 0
      modifies this
      ensures Valid() && ok == (pattern <= old(Rest())) && (ok ==> !ungot)
      ensures Rest() == old(Rest())[Agreed(pattern, old(Rest()))..]
    {
      hide Valid, Rest;
      ghost var before := Rest();
      var i := 0;
      while i < |pattern|
        invariant Valid() && i <= |pattern| && i <= |before| && pattern[..i] == before[..i]
        invariant Rest() == before[i..] && (i > 0 ==> !ungot)
      {
        var ch := Getc();
        if ch != pattern[i] as int {
          AgreedIs(pattern, before, i);
          Ungetc(before[i..]);
          return false;
        }
        i := i + 1;
      }
      AgreedIs(pattern, before, i);
      return true;
    }

    /** _parse_quadhex; -1 is failure. */
    method ParseQuadHex() returns (u: int)
      requires Valid()
      modifies this
      ensures Valid() && u >= -1 && (u == -1 <==> HexDigits(old(Rest()), 4, 0).Failed?)
      ensures u >= 0 ==> HexDigits(old(Rest()), 4, 0) == Parsed(u, Rest()) && !ungot
    {
      hide Valid, Rest;
      ghost var goal := HexDigits(Rest(), 4, 0);
      var i := 0;
      u := 0;
      while i < 4
        invariant Valid() && i <= 4 && u >= 0 && HexDigits(Rest(), 4 - i, u) == goal && (i > 0 ==> !ungot)
      {
        ghost var before := Rest();
        var hex := Getc();
        if hex == -1 {
          return -1;
        }
        if '0' as int <= hex <= '9' as int {
          hex := hex - '0' as int;
        } else if 'A' as int <= hex <= 'F' as int {
          hex := hex - ('A' as int - 10);
        } else if 'a' as int <= hex <= 'f' as int {
          hex := hex - ('a' as int - 10);
        } else {
          Ungetc(before);
          return -1;
        }
        assert hex == HexValue(before[0]);
        u := u * 16 + hex;
        i := i + 1;
      }
    }

    /** _parse_codepoint; the bytes are what it appends. */
    method ParseCodepoint() returns (ok: bool, bytes: string)
      requires Valid()
      modifies this
      ensures Valid() && ok == Codepoint(old(Rest())).Parsed?
      ensures ok ==> Codepoint(old(Rest())) == Parsed(bytes, Rest()) && !ungot
    {
      hide Valid, Rest, HexDigits, Utf8;
      bytes := "";
      FourDigits(Rest(), 4, 0);
      var u := ParseQuadHex();
      if u == -1 {
        return false, "";
      }
      if 0xd800 <= u <= 0xdfff {
        if 0xdc00 <= u {
          return false, "";
        }
        ghost var before := Rest();
        var ch := Getc();
        if ch == '\\' as int {
          before := Rest();
          ch := Getc();
        } else {
          Ungetc(before);
          return false, "";
        }
        if ch != 'u' as int {
          Ungetc(before);
          return false, "";
        }
        var second := ParseQuadHex();
        if !(0xdc00 <= second <= 0xdfff) {
          return false, "";
        }
        u := (u - 0xd800) * 0x400 + (second - 0xdc00) % 0x400;
        u := u + 0x10000;
      }
      bytes := Encode(u);
      ok := true;
    }

    /** _parse_string, after the opening quote. */
    method ParseString() returns (ok: bool, out: string)
      requires Valid()
      modifies this
      ensures Valid() && ok == Json.ParseString(old(Rest()), "").Parsed?
      ensures ok ==> Json.ParseString(old(Rest()), "") == Parsed(out, Rest()) && !ungot
    {
      hide Valid, Rest, Codepoint;
      ghost var goal := Json.ParseString(Rest(), "");
      out := "";
      while true
        invariant Valid() && Json.ParseString(Rest(), out) == goal
        decreases |Rest()|
      {
        ghost var before := Rest();
        var ch := Getc();
        if ch < ' ' as int {
          Ungetc(before);
          return false, "";
        } else if ch == '\"' as int {
          return true, out;
        } else if ch == '\\' as int {
          ch := Getc();
          if ch == -1 {
            return false, "";
          }
          if ch == 'u' as int {
            var done, bytes := ParseCodepoint();
            if !done {
              return false, "";
            }
            out := out + bytes;
          } else {
            var c := Unescaped(ch as char);
            if c.None? {
              return false, "";
            }
            out := out + [c.value];
          }
        } else {
          out := out + [ch as char];
        }
      }
    }

    /** _parse_number. One character behind the number may have been read and given back. */
    method ParseNumber<N>(nums: Numbers<N>) returns (ok: bool, v: Value<N>)
      requires Valid() && |Rest()| > 0 && IsNumeric(Rest()[0])
      modifies this
      ensures Valid() && ok == Json.ParseNumber(nums, old(Rest())).Parsed?
      ensures ok ==> Json.ParseNumber(nums, old(Rest())) == Parsed(v, Rest()) && ungot == (Rest() != "") && v.Num?
    {
      hide Valid, Rest;
      ghost var start, n := Rest(), NumericLength(Rest());
      var num := "";
      while true
        invariant Valid() && |num| <= n && num == start[..|num|] && Rest() == start[|num|..]
        invariant NumericLength(Rest()) == n - |num|
        decreases |Rest()|
      {
        ghost var before := Rest();
        var ch := Getc();
        if ch != -1 && IsNumeric(ch as char) {
          num := num + [ch as char];
        } else {
          Ungetc(before);
          break;
        }
      }
      var x := nums.read(num);
      if x.None? {
        return false, Null;
      }
      return true, Num(x.value);
    }

    /** _parse with a default_parse_context. Only a number leaves a character given back. */
    method Parse<N>(nums: Numbers<N>) returns (ok: bool, v: Value<N>)
      requires Valid()
      modifies this
      ensures Valid() && ok == Json.Parse(nums, old(Rest())).Parsed?
      ensures ok ==> Json.Parse(nums, old(Rest())) == Parsed(v, Rest()) && ungot == (v.Num? && Rest() != "")
      decreases |Rest()|, 0
    {
      hide Valid, Rest, Json.ParseString, Json.ParseNumber, ParseItems, ParseMembers, Next, After;
      SkipWs();
      ghost var t := Rest();
      v := Null;
      var ch := Getc();
      if ch == 'n' as int {
        ok := Match("ull");
      } else if ch == 'f' as int {
        ok := Match("alse");
        v := Bool(false);
      } else if ch == 't' as int {
        ok := Match("rue");
        v := Bool(true);
      } else if ch == '\"' as int {
        var s;
        ok, s := ParseString();
        v := Str(s);
      } else if ch == '[' as int {
        ok, v := ParseArray(nums);
      } else if ch == '{' as int {
        ok, v := ParseObject(nums);
      } else if '0' as int <= ch <= '9' as int || ch == '-' as int {
        Ungetc(t);
        ok, v := ParseNumber(nums);
      } else {
        Ungetc(t);
        ok := false;
      }
    }

    /** _parse_array, after the opening bracket. */
    method ParseArray<N>(nums: Numbers<N>) returns (ok: bool, v: Value<N>)
      requires Valid()
      modifies this
      ensures Valid() && ok == ArrayBody(nums, old(Rest())).Parsed?
      ensures ok ==> ArrayBody(nums, old(Rest())) == Parsed(v, Rest()) && !ungot && v.Arr?
      decreases |Rest()|, 3
    {
      hide Valid, Rest, Json.Parse, Next, After;
      var a: seq<Value<N>> := [];
      var stop := Expect(']');
      if stop {
        return true, Arr(a);
      }
      ghost var goal := ParseItems(nums, Rest(), a);
      var more := true;
      while more
        invariant Valid() && |Rest()| <= |old(Rest())|
        invariant more ==> ParseItems(nums, Rest(), a) == goal
        invariant !more ==> goal == if Next(Rest(), ']') then Parsed(Arr(a), After(Rest(), ']')) else Failed
        decreases |Rest()|, more
      {
        var done, item := Parse(nums);
        if !done {
          return false, Null;
        }
        a := a + [item];
        more := Expect(',');
      }
      ok := Expect(']');
      v := Arr(a);
    }

    /** _parse_object, after the opening brace. */
    method ParseObject<N>(nums: Numbers<N>) returns (ok: bool, v: Value<N>)
      requires Valid()
      modifies this
      ensures Valid() && ok == ObjectBody(nums, old(Rest())).Parsed?
      ensures ok ==> ObjectBody(nums, old(Rest())) == Parsed(v, Rest()) && !ungot && v.Obj?
      decreases |Rest()|, 3
    {
      hide Valid, Rest, Json.Parse, Next, After, ParseKey, Insert;
      var o: seq<Member<N>> := [];
      var stop := Expect('}');
      if stop {
        return true, Obj(o);
      }
      ghost var goal := ParseMembers(nums, Rest(), o);
      var more := true;
      while more
        invariant Valid() && |Rest()| <= |old(Rest())|
        invariant more ==> ParseMembers(nums, Rest(), o) == goal
        invariant !more ==> goal == if Next(Rest(), '}') then Parsed(Obj(o), After(Rest(), '}')) else Failed
        decreases |Rest()|, more
      {
        var found, key := ParseMemberKey();
        if !found {
          return false, Null;
        }
        var done, item := Parse(nums);
        if !done {
          return false, Null;
        }
        o := Insert(o, key, item);
        more := Expect(',');
      }
      ok := Expect('}');
      v := Obj(o);
    }

    /** The key of a member, and the colon. */
    method ParseMemberKey() returns (ok: bool, key: string)
      requires Valid()
      modifies this
      ensures Valid() && ok == ParseKey(old(Rest())).Parsed?
      ensures ok ==> ParseKey(old(Rest())) == Parsed(key, Rest())
    {
      hide Valid, Rest, Next, After, Json.ParseString;
      key := "";
      ok := Expect('\"');
      if !ok {
        return;
      }
      ok, key := ParseString();
      if !ok {
        return;
      }
      ok := Expect(':');
    }
  }

  /** The end of _parse_codepoint. */
  method Encode(u: nat) returns (bytes: string)
    requires u < 0x110000
    ensures bytes == Utf8(u)
  {
    bytes := "";
    if u < 0x80 {
      bytes := bytes + [u as char];
    } else {
      if u < 0x800 {
        bytes := bytes + [(0xc0 + u / 0x40) as char];
      } else {
        if u < 0x10000 {
          bytes := bytes + [(0xe0 + u / 0x1000) as char];
        } else {
          bytes := bytes + [(0xf0 + u / 0x40000) as char];
          bytes := bytes + [(0x80 + u / 0x1000 % 0x40) as char];
        }
        bytes := bytes + [(0x80 + u / 0x40 % 0x40) as char];
      }
      bytes := bytes + [(0x80 + u % 0x40) as char];
    }
  }
}
