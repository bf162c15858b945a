/** serialize as it runs, onto an output that grows, and the parse function on a whole text. */
module JsonText {
  import opened Options
  import opened Json
  import opened JsonInput
  import opened JsonRoundTrip

  /** The output iterator: a back inserter. */
  class Output {
    var text: string

    constructor ()
      ensures text == ""
    {
      text := "";
    }

    /** copy */
    method Copy(s: string)
      modifies this
      ensures text == old(text) + s
    {
      text := text + s;
    }
  }

  lemma EscapedSnoc(s: string, i: nat, done: string, goal: string)
    requires i < |s| && goal == done + EscapedAll(s[i..])
    ensures goal == done + Escaped(s[i]) + EscapedAll(s[i + 1..])
  {
    assert s[i..][1..] == s[i + 1..];
  }

  /** serialize_str */
  method SerializeStr(s: string, os: Output)
    modifies os
    ensures os.text == old(os.text) + Quoted(s)
  {
    hide Escaped, EscapedAll;
    os.Copy("\"");
    ghost var goal := os.text + EscapedAll(s);
    assert s[0..] == s;
    var i := 0;
    while i < |s|
      invariant i <= |s| && goal == os.text + EscapedAll(s[i..])
    {
      EscapedSnoc(s, i, os.text, goal);
      SerializeChar(s[i], os);
      i := i + 1;
    }
    NothingEscaped();
    assert s[i..] == "";
    os.Copy("\"");
    assert goal + "\"" == old(os.text) + Quoted(s);
  }

  lemma NothingEscaped()
    ensures EscapedAll("") == ""
  {
  }

  /** The switch in serialize_str. */
  method SerializeChar(c: char, os: Output)
    modifies os
    ensures os.text == old(os.text) + Escaped(c)
  {
    if c == '\"' {
      os.Copy("\\\"");
    } else if c == '\\' {
      os.Copy("\\\\");
    } else if c == '/' {
      os.Copy("\\/");
    } else if c == 8 as char {
      os.Copy("\\b");
    } else if c == 12 as char {
      os.Copy("\\f");
    } else if c == '\n' {
      os.Copy("\\n");
    } else if c == '\r' {
      os.Copy("\\r");
    } else if c == '\t' {
      os.Copy("\\t");
    } else if c < ' ' || c == 127 as char {
      os.Copy("\\u");
      os.Copy(['0', '0', HexDigit(c as int / 16), HexDigit(c as int % 16)]);
    } else {
      os.Copy([c]);
    }
  }

  /** value::serialize */
  method SerializeTo<N>(nums: Numbers<N>, v: Value<N>, os: Output)
    modifies os
    ensures os.text == old(os.text) + Serialize(nums, v)
    decreases v, 1
  {
    hide SerializeItems, SerializeMembers, Quoted;
    match v
    case Null => os.Copy("null");
    case Bool(b) => os.Copy(if b then "true" else "false");
    case Num(n) => os.Copy(nums.show(n));
    case Str(s) => SerializeStr(s, os);
    case Arr(items) =>
      os.Copy("[");
      ItemsTo(nums, items, os);
      os.Copy("]");
    case Obj(members) =>
      os.Copy("{");
      MembersTo(nums, members, os);
      os.Copy("}");
  }

  lemma ItemsFrom<N>(nums: Numbers<N>, items: seq<Value<N>>, i: nat, comma: string)
    requires i < |items|
    ensures SerializeItems(nums, items[i..], comma)
      == comma + Serialize(nums, items[i]) + SerializeItems(nums, items[i + 1..], ",")
  {
    hide Serialize;
    assert items[i..][1..] == items[i + 1..];
  }

  lemma NoItems<N>(nums: Numbers<N>, comma: string)
    ensures SerializeItems(nums, [], comma) == "" && SerializeMembers(nums, [], comma) == ""
  {
  }

  method ItemsTo<N>(nums: Numbers<N>, items: seq<Value<N>>, os: Output)
    modifies os
    ensures os.text == old(os.text) + SerializeItems(nums, items, "")
    decreases items, 0
  {
    hide Serialize, SerializeItems;
    ghost var goal := os.text + SerializeItems(nums, items, "");
    assert items[0..] == items;
    var i := 0;
    while i < |items|
      invariant i <= |items| && goal == os.text + SerializeItems(nums, items[i..], if i == 0 then "" else ",")
    {
      ghost var comma := if i == 0 then "" else ",";
      ItemsFrom(nums, items, i, comma);
      ghost var done := os.text;
      if i != 0 {
        os.Copy(",");
      }
      assert os.text == done + comma;
      SerializeTo(nums, items[i], os);
      i := i + 1;
    }
    NoItems(nums, if i == 0 then "" else ",");
    assert items[i..] == [];
  }

  lemma MembersFrom<N>(nums: Numbers<N>, members: seq<Member<N>>, i: nat, comma: string)
    requires i < |members|
    ensures SerializeMembers(nums, members[i..], comma)
      == comma + Quoted(members[i].key) + ":" + Serialize(nums, members[i].value)
      + SerializeMembers(nums, members[i + 1..], ",")
  {
    hide Serialize, Quoted;
    assert members[i..][1..] == members[i + 1..];
  }

  method MembersTo<N>(nums: Numbers<N>, members: seq<Member<N>>, os: Output)
    modifies os
    ensures os.text == old(os.text) + SerializeMembers(nums, members, "")
    decreases members, 0
  {
    hide Serialize, SerializeMembers, Quoted;
    ghost var goal := os.text + SerializeMembers(nums, members, "");
    assert members[0..] == members;
    var i := 0;
    while i < |members|
      invariant i <= |members| && goal == os.text + SerializeMembers(nums, members[i..], if i == 0 then "" else ",")
    {
      ghost var comma := if i == 0 then "" else ",";
      MembersFrom(nums, members, i, comma);
      ghost var done := os.text;
      if i != 0 {
        os.Copy(",");
      }
      assert os.text == done + comma;
      SerializeStr(members[i].key, os);
      os.Copy(":");
      SerializeTo(nums, members[i].value, os);
      i := i + 1;
    }
    NoItems(nums, if i == 0 then "" else ",");
    assert members[i..] == [];
  }

  /** The text is that of a number, and more follows it. */
  predicate NumberFollowed(text: string) {
    var t := SkipSpace(text);
    |t| > 0 && ('0' <= t[0] <= '9' || t[0] == '-') && NumericLength(t) < |t|
  }

  lemma FollowedIff<N>(nums: Numbers<N>, text: string)
    requires Parse(nums, text).Parsed?
    ensures NumberFollowed(text) <==> Parse(nums, text).value.Num? && Parse(nums, text).rest != ""
  {
    hide ParseString, ParseItems, ParseMembers, NumericLength, Next, After;
  }

  /** parse: the value, and the position behind it, which the code takes to be the end of the value. It is, exactly
      unless the text is that of a number with more behind it: then one character has been read and given back, and
      the position is one too far. */
  method ParseText<N>(nums: Numbers<N>, text: string) returns (ok: bool, v: Value<N>, pos: nat, ghost rest: string)
    ensures ok == Parse(nums, text).Parsed? && pos <= |text|
    ensures ok ==> Parse(nums, text) == Parsed(v, rest)
    ensures ok ==> (rest == text[pos..] <==> !NumberFollowed(text))
    ensures ok && NumberFollowed(text) ==> pos > 0 && rest == text[pos - 1..]
  {
    hide Parse, NumberFollowed;
    var input := new Input(text);
    ok, v := input.Parse(nums);
    pos, rest := input.cur, input.Rest();
    if ok {
      FollowedIff(nums, text);
    }
  }

  /** For example, after a number and a space the position is behind the space. */
  method NumberThenSpace<N>(nums: Numbers<N>) returns (ok: bool, v: Value<N>, pos: nat)
    requires nums.read("1").Some?
    ensures ok && pos == 2 && Parse(nums, "1 ") == Parsed(v, " ")
  {
    var text := "1 ";
    assert text[1..] == " " && text[..1] == "1";
    assert NumericLength(" ") == 0;
    assert NumericLength(text) == 1 && SkipSpace(text) == text;
    assert Parse(nums, text) == ParseNumber(nums, text);
    hide Parse;
    ghost var rest;
    ok, v, pos, rest := ParseText(nums, text);
  }

  /** What is printed is read back, to its end. */
  method PrintAndParse<N>(nums: Numbers<N>, v: Value<N>) returns (ok: bool, w: Value<N>, text: string, pos: nat)
    requires WellFormed(v) && Printable(nums, v)
    ensures ok && w == v && text == Serialize(nums, v) && pos == |text|
  {
    hide Parse, Serialize, WellFormed, Printable;
    var os := new Output();
    SerializeTo(nums, v, os);
    text := os.text;
    assert "" + Serialize(nums, v) == Serialize(nums, v);
    RoundTrip(nums, v);
    ghost var rest;
    ok, w, pos, rest := ParseText(nums, text);
  }
}
