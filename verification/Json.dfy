/** JSON text as values: rendering a document, and a reader for the grammar of
    RFC 8259 that recovers it. */
module JsonText {
  import opened Wrappers

  datatype Value =
    | Null
    | Text(s: string)
    | Number(digits: string)
    | Flag(b: bool)
    | Object(members: seq<Member>)
    | Array(items: seq<Value>)

  datatype Member = Member(key: string, value: Value)

  /* ----- rendering ----- */

  /** Characters that are written with a backslash in front. */
  predicate Escaped(c: char) {
    c == '\\' || c == '"' || 8 <= c as int <= 13
  }

  function Escape(s: string): string {
    if s == "" then "" else (if Escaped(s[0]) then ['\\', s[0]] else [s[0]]) + Escape(s[1..])
  }

  function Quote(s: string): string { "\"" + Escape(s) + "\"" }

  function Comma(inList: bool): string { if inList then "," else "" }

  function Render(v: Value): string
    decreases v, 1
  {
    match v
    case Null => "null"
    case Text(s) => Quote(s)
    case Number(digits) => digits
    case Flag(b) => if b then "true" else "false"
    case Object(members) => "{" + RenderMembers(members, false) + "}"
    case Array(items) => "[" + RenderItems(items, false) + "]"
  }

  /** The members of an object, or the rest of them when some came before. */
  function RenderMembers(members: seq<Member>, inList: bool): string
    decreases members, 0
  {
    if members == [] then ""
    else Comma(inList) + Quote(members[0].key) + ":" + Render(members[0].value) + RenderMembers(members[1..], true)
  }

  function RenderItems(items: seq<Value>, inList: bool): string
    decreases items, 0
  {
    if items == [] then "" else Comma(inList) + Render(items[0]) + RenderItems(items[1..], true)
  }

  /* ----- reading ----- */

  predicate IsControl(c: char) { c as int < 0x20 }

  predicate IsNumberChar(c: char) {
    '0' <= c <= '9' || c == '-' || c == '+' || c == '.' || c == 'e' || c == 'E'
  }

  /** What an escape sequence stands for (without the \u form). */
  function Unescape(c: char): Option<char> {
    if c == '"' || c == '\\' || c == '/' then Some(c)
    else if c == 'b' then Some(8 as char)
    else if c == 'f' then Some(12 as char)
    else if c == 'n' then Some(10 as char)
    else if c == 'r' then Some(13 as char)
    else if c == 't' then Some(9 as char)
    else None
  }

  /** Read the rest of a string after its opening quote (section 7 of RFC 8259). */
  function ReadString(t: string): (r: Option<(string, string)>)
    ensures r.Some? ==> |r.value.1| < |t|
  {
    if t == "" || IsControl(t[0]) then None
    else if t[0] == '"' then Some(("", t[1..]))
    else if t[0] == '\\' then
      if |t| < 2 || Unescape(t[1]).None? then None
      else match ReadString(t[2..])
        case None => None
        case Some((s, rest)) => Some(([Unescape(t[1]).value] + s, rest))
    else match ReadString(t[1..])
      case None => None
      case Some((s, rest)) => Some(([t[0]] + s, rest))
  }

  function ReadNumber(t: string): (r: (string, string))
    ensures |r.0| + |r.1| == |t|
  {
    if t == "" || !IsNumberChar(t[0]) then ("", t)
    else var (digits, rest) := ReadNumber(t[1..]); ([t[0]] + digits, rest)
  }

  function ReadValue(t: string): (r: Option<(Value, string)>)
    ensures r.Some? ==> |r.value.1| < |t|
    decreases |t|, 1
  {
    if t == "" then None
    else if t[0] == '{' then
      match ReadMembers(t[1..], false) case None => None case Some((ms, rest)) => Some((Object(ms), rest))
    else if t[0] == '[' then
      match ReadItems(t[1..], false) case None => None case Some((vs, rest)) => Some((Array(vs), rest))
    else if t[0] == '"' then
      match ReadString(t[1..]) case None => None case Some((s, rest)) => Some((Text(s), rest))
    else if "null" <= t then Some((Null, t[4..]))
    else if "true" <= t then Some((Flag(true), t[4..]))
    else if "false" <= t then Some((Flag(false), t[5..]))
    else
      var (digits, rest) := ReadNumber(t);
      if digits == "" then None else Some((Number(digits), rest))
  }

  /** Read members up to the closing brace; after the first, each follows a comma. */
  function ReadMembers(t: string, inList: bool): (r: Option<(seq<Member>, string)>)
    ensures r.Some? ==> |r.value.1| < |t|
    decreases |t|, 0
  {
    if t == "" then None
    else if t[0] == '}' then Some(([], t[1..]))
    else if inList && t[0] != ',' then None
    else
      var t1 := if inList then t[1..] else t;
      if t1 == "" || t1[0] != '"' then None
      else match ReadString(t1[1..])
        case None => None
        case Some((key, t2)) =>
          if t2 == "" || t2[0] != ':' then None
          else match ReadValue(t2[1..])
            case None => None
            case Some((v, t3)) =>
              match ReadMembers(t3, true)
              case None => None
              case Some((ms, rest)) => Some(([Member(key, v)] + ms, rest))
  }

  function ReadItems(t: string, inList: bool): (r: Option<(seq<Value>, string)>)
    ensures r.Some? ==> |r.value.1| < |t|
    decreases |t|, 2
  {
    if t == "" then None
    else if t[0] == ']' then Some(([], t[1..]))
    else if inList && t[0] != ',' then None
    else
      match ReadValue(if inList then t[1..] else t)
      case None => None
      case Some((v, t1)) =>
        match ReadItems(t1, true)
        case None => None
        case Some((vs, rest)) => Some(([v] + vs, rest))
  }

  /* ----- round trip ----- */

  predicate Clean(s: string) { forall i | 0 <= i < |s| :: !IsControl(s[i]) }

  predicate IsNumberText(digits: string) {
    digits != "" && forall i | 0 <= i < |digits| :: IsNumberChar(digits[i])
  }

  /** Strings without control characters, and numbers that are numbers. */
  predicate Plain(v: Value)
    decreases v, 1
  {
    match v
    case Null => true
    case Text(s) => Clean(s)
    case Number(digits) => IsNumberText(digits)
    case Flag(_) => true
    case Object(members) => forall i | 0 <= i < |members| :: Clean(members[i].key) && Plain(members[i].value)
    case Array(items) => forall i | 0 <= i < |items| :: Plain(items[i])
  }

  /** A quoted string is read back exactly when it has no control characters. */
  lemma {:induction false} StringRoundTrip(s: string, rest: string)
    ensures ReadString(Escape(s) + "\"" + rest) == if Clean(s) then Some((s, rest)) else None
  {
    var t := Escape(s) + "\"" + rest;
    if s == "" {
      assert t[1..] == rest;
    } else {
      StringRoundTrip(s[1..], rest);
      var tail := Escape(s[1..]) + "\"" + rest;
      if Escaped(s[0]) {
        assert t == ['\\', s[0]] + tail && t[2..] == tail;
      } else {
        assert t == [s[0]] + tail && t[1..] == tail;
      }
      assert s == [s[0]] + s[1..];
      assert Clean(s) <==> !IsControl(s[0]) && Clean(s[1..]);
    }
  }

  /** A string is written as it is exactly when it has no quote, no backslash, and none
      of the control characters from backspace to carriage return. */
  lemma {:induction false} EscapedOnly(s: string)
    ensures |s| <= |Escape(s)|
    ensures |Escape(s)| == |s| <==> forall i | 0 <= i < |s| :: s[i] != '"' && s[i] != '\\' && !(8 <= s[i] as int <= 13)
    ensures |Escape(s)| == |s| ==> Escape(s) == s
  {
    if s != "" {
      EscapedOnly(s[1..]);
      assert s == [s[0]] + s[1..];
      assert forall i | 0 < i < |s| :: s[i] == s[1..][i - 1];
    }
  }

  lemma {:induction false} NumberRoundTrip(digits: string, rest: string)
    requires (forall i | 0 <= i < |digits| :: IsNumberChar(digits[i])) && (rest != "" ==> !IsNumberChar(rest[0]))
    ensures ReadNumber(digits + rest) == (digits, rest)
  {
    if digits == "" {
      assert digits + rest == rest;
    } else {
      assert (digits + rest)[1..] == digits[1..] + rest;
      NumberRoundTrip(digits[1..], rest);
      assert digits == [digits[0]] + digits[1..];
    }
  }

  /** A rendered value is read back, with whatever follows it left over. */
  lemma {:induction false} ValueRoundTrip(v: Value, rest: string)
    requires Plain(v) && (rest != "" ==> !IsNumberChar(rest[0]))
    ensures ReadValue(Render(v) + rest) == Some((v, rest))
    decreases v, 1
  {
    hide ReadString, ReadNumber, ReadMembers, ReadItems, RenderMembers, RenderItems, Escape;
    var t := Render(v) + rest;
    match v
    case Null => assert t[4..] == rest;
    case Text(s) =>
      assert t[1..] == Escape(s) + "\"" + rest;
      StringRoundTrip(s, rest);
    case Number(digits) =>
      assert t[0] == digits[0];
      NumberRoundTrip(digits, rest);
    case Flag(b) => assert t[|Render(v)|..] == rest;
    case Object(members) =>
      assert t[1..] == RenderMembers(members, false) + "}" + rest;
      MembersRoundTrip(members, false, rest);
    case Array(items) =>
      assert t[1..] == RenderItems(items, false) + "]" + rest;
      ItemsRoundTrip(items, false, rest);
  }

  lemma {:induction false} MembersRoundTrip(members: seq<Member>, inList: bool, rest: string)
    requires forall i | 0 <= i < |members| :: Clean(members[i].key) && Plain(members[i].value)
    ensures ReadMembers(RenderMembers(members, inList) + "}" + rest, inList) == Some((members, rest))
    decreases members, 0
  {
    var t := RenderMembers(members, inList) + "}" + rest;
    if members == [] {
      assert t[1..] == rest;
    } else {
      var m, t3 := members[0], RenderMembers(members[1..], true) + "}" + rest;
      assert t == Comma(inList) + Quote(m.key) + ":" + Render(m.value) + t3;
      assert t3[0] == '}' || t3[0] == ',';
      ValueRoundTrip(m.value, t3);
      MembersRoundTrip(members[1..], true, rest);
      assert members == [Member(m.key, m.value)] + members[1..];
      MemberRead(t, inList, m, t3);
    }
  }

  /** Reading one member and then the others. */
  lemma MemberRead(t: string, inList: bool, m: Member, t3: string)
    requires t == Comma(inList) + Quote(m.key) + ":" + Render(m.value) + t3 && Clean(m.key)
    requires ReadValue(Render(m.value) + t3) == Some((m.value, t3))
    ensures ReadMembers(t, inList) == match ReadMembers(t3, true)
                                      case None => None
                                      case Some((ms, rest)) => Some(([m] + ms, rest))
  {
    hide ReadValue, Render, Escape, ReadString;
    var t2 := ":" + Render(m.value) + t3;
    var t1 := Quote(m.key) + t2;
    assert t == Comma(inList) + t1;
    assert t1[0] == '"' && t1[1..] == Escape(m.key) + "\"" + t2;
    StringRoundTrip(m.key, t2);
    assert t2[1..] == Render(m.value) + t3;
    assert t1 == if inList then t[1..] else t;
  }

  lemma {:induction false} ItemsRoundTrip(items: seq<Value>, inList: bool, rest: string)
    requires forall i | 0 <= i < |items| :: Plain(items[i])
    ensures ReadItems(RenderItems(items, inList) + "]" + rest, inList) == Some((items, rest))
    decreases items, 0
  {
    var t := RenderItems(items, inList) + "]" + rest;
    if items == [] {
      assert t[1..] == rest;
    } else {
      var t1 := RenderItems(items[1..], true) + "]" + rest;
      assert t == Comma(inList) + Render(items[0]) + t1;
      assert t1[0] == ']' || t1[0] == ',';
      ValueRoundTrip(items[0], t1);
      ItemsRoundTrip(items[1..], true, rest);
      assert items == [items[0]] + items[1..];
      ItemRead(t, inList, items[0], t1);
    }
  }

  lemma ItemRead(t: string, inList: bool, v: Value, t1: string)
    requires t == Comma(inList) + Render(v) + t1 && Plain(v)
    requires ReadValue(Render(v) + t1) == Some((v, t1))
    ensures ReadItems(t, inList) == match ReadItems(t1, true)
                                    case None => None
                                    case Some((vs, rest)) => Some(([v] + vs, rest))
  {
    hide ReadValue, Render, Plain;
    RenderStart(v);
    var own := Render(v) + t1;
    if inList {
      assert t == "," + own && t[1..] == own;
    } else {
      assert t == own;
    }
    assert own[0] == Render(v)[0];
  }

  /** A rendered value never starts like the end of an array. */
  lemma RenderStart(v: Value)
    requires Plain(v)
    ensures Render(v) != "" && Render(v)[0] != ']'
  {}
}
