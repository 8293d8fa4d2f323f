/** Writing JSON into a fixed buffer: one flag says whether a comma is due, and
    another whether anything was left out for lack of room. */
module JsonWriters {
  import opened Wrappers
  import opened JsonText

  // The most characters a printed value needs: a truth value, an int, a coordinate,
  // and a 64-bit integer.
  const FLAG_WIDTH: nat := 5
  const INT_WIDTH: nat := 11
  const FLOAT_WIDTH: nat := 12
  const LONG_WIDTH: nat := 21

  /** What is in the buffer, and whether something did not fit. */
  datatype Ink = Ink(text: string, overflowed: bool)

  /** Text s was added character by character, as far as it fits before the NUL. */
  predicate Puts(a: Ink, s: string, b: Ink, size: nat) {
    && |a.text| < size && b.overflowed == (a.overflowed || |a.text| + |s| > size - 1)
    && b.text == if |a.text| + |s| <= size - 1 then a.text + s else (a.text + s)[..size - 1]
  }

  lemma PutsBoth(a: Ink, s: string, b: Ink, t: string, c: Ink, size: nat)
    requires Puts(a, s, b, size) && Puts(b, t, c, size)
    ensures Puts(a, s + t, c, size)
  {
    assert a.text + s + t == a.text + (s + t);
    if |a.text| + |s| > size - 1 {
      assert (a.text + s + t)[..size - 1] == (a.text + s)[..size - 1];
    }
  }

  lemma PutsNothing(a: Ink, size: nat)
    requires |a.text| < size
    ensures Puts(a, "", a, size)
  {
    assert a.text + "" == a.text;
  }

  /** Text s was added after what is there, completely unless room ran out, and room
      ran out exactly if there was less of it than needed. */
  predicate Adds(a: Ink, s: string, needed: nat, b: Ink, size: nat) {
    && a.text <= b.text && |a.text| < size && |b.text| < size
    && (b.overflowed <==> a.overflowed || |a.text| + needed > size - 1)
    && (!b.overflowed ==> b.text == a.text + s)
  }

  lemma PutsAdds(a: Ink, s: string, b: Ink, size: nat)
    requires Puts(a, s, b, size)
    ensures Adds(a, s, |s|, b, size)
  {}

  /** The room that two texts need, one after the other. */
  function Both(needed: nat, length: nat, neededNext: nat): nat {
    if needed > length + neededNext then needed else length + neededNext
  }

  lemma AddsBoth(a: Ink, s: string, n: nat, b: Ink, t: string, m: nat, c: Ink, size: nat)
    requires Adds(a, s, n, b, size) && Adds(b, t, m, c, size)
    ensures Adds(a, s + t, Both(n, |s|, m), c, size)
  {}

  lemma AddsNothing(a: Ink, size: nat)
    requires |a.text| < size
    ensures Adds(a, "", 0, a, size)
  {}

  /** A character as it appears in a string. */
  function Copied(c: char): string { if Escaped(c) then ['\\', c] else [c] }

  class JsonWriter {
    const buf: array<char>
    var cursor: nat
    var inList: bool
    var overflowed: bool

    /** The cursor stays before the last position, which is kept for the NUL. */
    predicate Valid()
      reads this
    { cursor < buf.Length }

    function Written(): Ink
      requires Valid()
      reads this, buf
    { Ink(buf[..cursor], overflowed) }

    constructor (buf: array<char>)
      requires buf.Length > 0
      ensures Valid() && this.buf == buf && Written() == Ink("", false) && !inList
    {
      this.buf, cursor, inList, overflowed := buf, 0, false, false;
    }

    /** Write one character if there is room. */
    method Check(c: char)
      requires Valid()
      modifies this`cursor, this`overflowed, buf
      ensures Valid() && Puts(old(Written()), [c], Written(), buf.Length)
      ensures Written() == if old(cursor) < buf.Length - 1 then Ink(old(Written()).text + [c], old(overflowed))
                           else Ink(old(Written()).text, true)
    {
      if cursor >= buf.Length - 1 {
        overflowed := true;
      } else {
        buf[cursor] := c;
        cursor := cursor + 1;
      }
    }

    /** Whether n more characters and a NUL fit; if not, that is recorded. */
    method Remaining(n: nat) returns (fits: bool)
      requires Valid()
      modifies this`overflowed
      ensures fits == (cursor + n < buf.Length - 1)
      ensures overflowed == (old(overflowed) || !fits)
    {
      fits := cursor + n < buf.Length - 1;
      if !fits { overflowed := true; }
    }

    /** Write a short text in one go if its longest form fits. */
    method Printed(s: string, width: nat)
      requires Valid() && 0 < |s| <= width <= LONG_WIDTH
      modifies this`cursor, this`overflowed, buf
      ensures Valid() && Adds(old(Written()), s, width + 1, Written(), buf.Length)
      ensures Written() == if old(cursor) + width < buf.Length - 1 then Ink(old(Written()).text + s, old(overflowed))
                           else Ink(old(Written()).text, true)
    {
      var fits := Remaining(width);
      if fits {
        var b := cursor;
        for i := 0 to |s|
          invariant cursor == b && overflowed == old(overflowed)
          invariant buf[..b + i] == old(Written()).text + s[..i]
        {
          buf[b + i] := s[i];
        }
        cursor := b + |s|;
      }
    }

    /** Write one character of a string, with a backslash in front if it needs one. */
    method CopyEscaped(c: char)
      requires Valid()
      modifies this`cursor, this`overflowed, buf
      ensures Valid() && Puts(old(Written()), Copied(c), Written(), buf.Length)
    {
      hide Puts;
      ghost var before := Written();
      if Escaped(c) {
        Check('\\');
        ghost var between := Written();
        Check(c);
        PutsBoth(before, ['\\'], between, [c], Written(), buf.Length);
        assert ['\\'] + [c] == Copied(c);
      } else {
        Check(c);
      }
    }

    /** Write a string in quotes, escaping quotes, backslashes and some controls;
        an absent string is written as null. */
    method String(s: Option<string>)
      requires Valid()
      modifies this`cursor, this`overflowed, buf
      ensures Valid() && Adds(old(Written()), if s.Some? then Quote(s.value) else "null",
                              if s.Some? then |Quote(s.value)| else 5, Written(), buf.Length)
      ensures s.Some? ==> Puts(old(Written()), Quote(s.value), Written(), buf.Length)
    {
      hide Adds, Puts;
      if s.None? {
        Printed("null", 4);
        return;
      }
      var chars := s.value;
      ghost var start := Written();
      Check('"');
      assert "\"" + Escape(chars[..0]) == ['"'];
      for i := 0 to |chars|
        invariant Valid() && Puts(start, "\"" + Escape(chars[..i]), Written(), buf.Length)
      {
        ghost var before := Written();
        CopyEscaped(chars[i]);
        EscapeMore(chars, i);
        PutsBoth(start, "\"" + Escape(chars[..i]), before, Copied(chars[i]), Written(), buf.Length);
        assert "\"" + Escape(chars[..i]) + Copied(chars[i]) == "\"" + Escape(chars[..i + 1]);
      }
      assert chars[..|chars|] == chars;
      ghost var last := Written();
      Check('"');
      PutsBoth(start, "\"" + Escape(chars), last, "\"", Written(), buf.Length);
      PutsAdds(start, Quote(chars), Written(), buf.Length);
    }

    /** Write a comma if something in the same container came before. */
    method Separate()
      requires Valid()
      modifies this`cursor, this`overflowed, buf
      ensures Valid() && Puts(old(Written()), Comma(inList), Written(), buf.Length)
    {
      PutsNothing(Written(), buf.Length);
      if inList { Check(','); }
    }

    /** Write a key; its value, to follow at once, needs no comma. */
    method EscapedKey(key: string)
      requires Valid()
      modifies this, buf
      ensures Valid() && inList
      ensures Puts(old(Written()), Comma(old(inList)) + Quote(key) + ":", Written(), buf.Length)
    {
      hide Adds, Puts;
      ghost var a := Written();
      Separate();
      ghost var b := Written();
      String(Some(key));
      PutsBoth(a, Comma(old(inList)), b, Quote(key), Written(), buf.Length);
      ghost var c := Written();
      Check(':');
      PutsBoth(a, Comma(old(inList)) + Quote(key), c, ":", Written(), buf.Length);
      inList := true;
    }

    method KeyString(key: string, value: Option<string>)
      requires Valid()
      modifies this, buf
      ensures Valid() && inList
      ensures var lead := Comma(old(inList)) + Quote(key) + ":";
              Adds(old(Written()), lead + (if value.Some? then Quote(value.value) else "null"),
                   |lead| + (if value.Some? then |Quote(value.value)| else 5), Written(), buf.Length)
    {
      hide Adds, Puts, Quote;
      ghost var a, lead := Written(), Comma(inList) + Quote(key) + ":";
      EscapedKey(key);
      ghost var b := Written();
      PutsAdds(a, lead, b, buf.Length);
      String(value);
      AddsBoth(a, lead, |lead|, b, if value.Some? then Quote(value.value) else "null",
               if value.Some? then |Quote(value.value)| else 5, Written(), buf.Length);
    }

    /** Write a number or a truth value: a text of known maximal width. */
    method KeyPrinted(key: string, value: string, width: nat)
      requires Valid() && 0 < |value| <= width <= LONG_WIDTH
      modifies this, buf
      ensures Valid() && inList
      ensures var lead := Comma(old(inList)) + Quote(key) + ":";
              Adds(old(Written()), lead + value, |lead| + width + 1, Written(), buf.Length)
    {
      hide Adds, Puts, Quote;
      ghost var a, lead := Written(), Comma(inList) + Quote(key) + ":";
      EscapedKey(key);
      ghost var b := Written();
      PutsAdds(a, lead, b, buf.Length);
      Printed(value, width);
      AddsBoth(a, lead, |lead|, b, value, width + 1, Written(), buf.Length);
    }

    /** Open an object or array, under a key or as an array element. */
    method Open(key: Option<string>, bracket: char)
      requires Valid()
      modifies this, buf
      ensures Valid() && !inList
      ensures Puts(old(Written()), Comma(old(inList)) + (if key.Some? then Quote(key.value) + ":" else "") + [bracket],
                   Written(), buf.Length)
    {
      hide Puts;
      ghost var a := Written();
      if key.Some? {
        EscapedKey(key.value);
        assert Comma(old(inList)) + (Quote(key.value) + ":") == Comma(old(inList)) + Quote(key.value) + ":";
      } else {
        Separate();
        assert Comma(old(inList)) + "" == Comma(old(inList));
      }
      ghost var b := Written();
      Check(bracket);
      PutsBoth(a, Comma(old(inList)) + (if key.Some? then Quote(key.value) + ":" else ""), b, [bracket], Written(), buf.Length);
      inList := false;
    }

    /** Close an object or array; it counts as something that came before. */
    method Close(bracket: char)
      requires Valid()
      modifies this, buf
      ensures Valid() && inList && Puts(old(Written()), [bracket], Written(), buf.Length)
    {
      Check(bracket);
      inList := true;
    }
  }

  /* ----- whole documents ----- */

  /** What the writer can be asked for: numbers of three kinds, and arrays that hold
      only objects and arrays. */
  datatype Document =
    | Absent
    | Words(s: string)
    | Int(digits: string)
    | Float(digits: string)
    | Long(digits: string)
    | Truth(b: bool)
    | Struct(members: seq<Field>)
    | List(items: seq<Document>)

  datatype Field = Field(key: string, value: Document)

  /** The JSON value that a document stands for. */
  function ValueOf(d: Document): Value
    decreases d, 1
  {
    match d
    case Absent => Null
    case Words(s) => Text(s)
    case Int(digits) => Number(digits)
    case Float(digits) => Number(digits)
    case Long(digits) => Number(digits)
    case Truth(b) => Flag(b)
    case Struct(members) => Object(MembersOf(members))
    case List(items) => Array(ItemsOf(items))
  }

  function MembersOf(members: seq<Field>): seq<Member>
    decreases members, 0
  {
    if members == [] then [] else [Member(members[0].key, ValueOf(members[0].value))] + MembersOf(members[1..])
  }

  function ItemsOf(items: seq<Document>): seq<Value>
    decreases items, 0
  {
    if items == [] then [] else [ValueOf(items[0])] + ItemsOf(items[1..])
  }

  /** Printed numbers have at most the width reserved for their kind. */
  predicate Writable(d: Document)
    decreases d, 1
  {
    match d
    case Int(digits) => 0 < |digits| <= INT_WIDTH
    case Float(digits) => 0 < |digits| <= FLOAT_WIDTH
    case Long(digits) => 0 < |digits| <= LONG_WIDTH
    case Struct(members) => forall i | 0 <= i < |members| :: Writable(members[i].value)
    case List(items) => forall i | 0 <= i < |items| :: Writable(items[i]) && IsContainer(items[i])
    case _ => true
  }

  /** The room that a document needs.  What is printed in one go needs its longest form
      and one character more. */
  function Room(d: Document): nat
    decreases d, 1
  {
    match d
    case Absent => 5
    case Words(s) => |Quote(s)|
    case Int(_) => 12
    case Float(_) => 13
    case Long(_) => 22
    case Truth(_) => 6
    case Struct(members) => Both(1 + RoomOfMembers(members, false), |Render(ValueOf(d))|, 0)
    case List(items) => Both(1 + RoomOfItems(items, false), |Render(ValueOf(d))|, 0)
  }

  function RoomOfMembers(members: seq<Field>, more: bool): nat
    decreases members, 0
  {
    if members == [] then 0
    else
      var lead := |Comma(more)| + |Quote(members[0].key)| + 1;
      Both(lead + Room(members[0].value), lead + |Render(ValueOf(members[0].value))|, RoomOfMembers(members[1..], true))
  }

  function RoomOfItems(items: seq<Document>, more: bool): nat
    decreases items, 0
  {
    if items == [] then 0
    else
      var lead := |Comma(more)|;
      Both(lead + Room(items[0]), lead + |Render(ValueOf(items[0]))|, RoomOfItems(items[1..], true))
  }

  /** That is no less than its text, and at most 21 characters more. */
  lemma {:induction false} RoomBounds(d: Document)
    requires Writable(d)
    ensures |Render(ValueOf(d))| <= Room(d) <= |Render(ValueOf(d))| + 21
    decreases d, 1
  {
    match d
    case Struct(members) => RoomOfMembersBounds(members, false);
    case List(items) => RoomOfItemsBounds(items, false);
    case _ =>
  }

  lemma {:induction false} RoomOfMembersBounds(members: seq<Field>, more: bool)
    requires forall i | 0 <= i < |members| :: Writable(members[i].value)
    ensures RoomOfMembers(members, more) <= |RenderMembers(MembersOf(members), more)| + 21
    decreases members, 0
  {
    hide Quote;
    if members != [] {
      RoomBounds(members[0].value);
      RoomOfMembersBounds(members[1..], true);
      var first, rest := Member(members[0].key, ValueOf(members[0].value)), MembersOf(members[1..]);
      assert ([first] + rest)[1..] == rest;
    }
  }

  lemma {:induction false} RoomOfItemsBounds(items: seq<Document>, more: bool)
    requires forall i | 0 <= i < |items| :: Writable(items[i])
    ensures RoomOfItems(items, more) <= |RenderItems(ItemsOf(items), more)| + 21
    decreases items, 0
  {
    if items != [] {
      RoomBounds(items[0]);
      RoomOfItemsBounds(items[1..], true);
      var first, rest := ValueOf(items[0]), ItemsOf(items[1..]);
      assert ([first] + rest)[1..] == rest;
    }
  }

  predicate IsContainer(d: Document) { d.Struct? || d.List? }

  /** Write the members of an object. */
  method WriteMembers(w: JsonWriter, members: seq<Field>)
    requires w.Valid() && forall i | 0 <= i < |members| :: Writable(members[i].value)
    modifies w, w.buf
    ensures w.Valid() && w.inList == (old(w.inList) || members != [])
    ensures Adds(old(w.Written()), RenderMembers(MembersOf(members), old(w.inList)), RoomOfMembers(members, old(w.inList)),
                 w.Written(), w.buf.Length)
    decreases members, 0
  {
    hide Adds, Quote, RenderMembers, RoomOfMembers, MembersOf;
    ghost var a := w.Written();
    ghost var lead := if members == [] then "" else Comma(w.inList) + Quote(members[0].key) + ":";
    MembersUnfold(members, w.inList, lead);
    if members == [] {
      InkFits(w);
      AddsNothing(a, w.buf.Length);
      return;
    }
    WriteMember(w, members[0]);
    ghost var b := w.Written();
    WriteMembers(w, members[1..]);
    AddsBoth(a, lead + Render(ValueOf(members[0].value)), |lead| + Room(members[0].value), b,
             RenderMembers(MembersOf(members[1..]), true), RoomOfMembers(members[1..], true), w.Written(), w.buf.Length);
  }

  lemma MembersUnfold(members: seq<Field>, more: bool, lead: string)
    requires members != [] ==> lead == Comma(more) + Quote(members[0].key) + ":"
    ensures if members == [] then RenderMembers(MembersOf(members), more) == "" && RoomOfMembers(members, more) == 0
            else
              var value := members[0].value;
              && RenderMembers(MembersOf(members), more)
                 == lead + Render(ValueOf(value)) + RenderMembers(MembersOf(members[1..]), true)
              && RoomOfMembers(members, more)
                 == Both(|lead| + Room(value), |lead + Render(ValueOf(value))|, RoomOfMembers(members[1..], true))
  {
    hide Quote, Render, RenderMembers, Room, ValueOf;
    RenderNoMembers(more);
    if members != [] {
      RenderFirstMember(Member(members[0].key, ValueOf(members[0].value)), MembersOf(members[1..]), more);
    }
  }

  lemma RenderNoMembers(more: bool)
    ensures RenderMembers([], more) == ""
  {}

  lemma RenderFirstMember(first: Member, rest: seq<Member>, more: bool)
    ensures RenderMembers([first] + rest, more)
            == Comma(more) + Quote(first.key) + ":" + Render(first.value) + RenderMembers(rest, true)
  {
    hide Quote, Render;
    assert ([first] + rest)[1..] == rest;
  }

  /** Write a key and its value, descending into objects and arrays. */
  method WriteMember(w: JsonWriter, m: Field)
    requires w.Valid() && Writable(m.value)
    modifies w, w.buf
    ensures w.Valid() && w.inList
    ensures var lead := Comma(old(w.inList)) + Quote(m.key) + ":";
            Adds(old(w.Written()), lead + Render(ValueOf(m.value)), |lead| + Room(m.value), w.Written(), w.buf.Length)
    decreases m, 1
  {
    hide Adds, Quote;
    ghost var v := Render(ValueOf(m.value));
    assert Comma(w.inList) + Keyed(Some(m.key)) + v == Comma(w.inList) + Quote(m.key) + ":" + v;
    match m.value
    case Absent => w.KeyString(m.key, None);
    case Words(s) => w.KeyString(m.key, Some(s));
    case Int(digits) => w.KeyPrinted(m.key, digits, INT_WIDTH);
    case Float(digits) => w.KeyPrinted(m.key, digits, FLOAT_WIDTH);
    case Long(digits) => w.KeyPrinted(m.key, digits, LONG_WIDTH);
    case Truth(b) => w.KeyPrinted(m.key, if b then "true" else "false", FLAG_WIDTH);
    case Struct(_) => WriteContainer(w, Some(m.key), m.value);
    case List(_) => WriteContainer(w, Some(m.key), m.value);
  }

  method WriteItems(w: JsonWriter, items: seq<Document>)
    requires w.Valid() && forall i | 0 <= i < |items| :: Writable(items[i]) && IsContainer(items[i])
    modifies w, w.buf
    ensures w.Valid() && w.inList == (old(w.inList) || items != [])
    ensures Adds(old(w.Written()), RenderItems(ItemsOf(items), old(w.inList)), RoomOfItems(items, old(w.inList)),
                 w.Written(), w.buf.Length)
    decreases items, 0
  {
    hide Adds, RenderItems, RoomOfItems, ItemsOf;
    ghost var a, lead := w.Written(), Comma(w.inList);
    ItemsUnfold(items, w.inList);
    if items == [] {
      InkFits(w);
      AddsNothing(a, w.buf.Length);
      return;
    }
    ghost var first := Render(ValueOf(items[0]));
    assert lead + Keyed(None) == lead;
    WriteContainer(w, None, items[0]);
    ghost var b := w.Written();
    WriteItems(w, items[1..]);
    AddsBoth(a, lead + first, |lead| + Room(items[0]), b,
             RenderItems(ItemsOf(items[1..]), true), RoomOfItems(items[1..], true), w.Written(), w.buf.Length);
  }

  lemma ItemsUnfold(items: seq<Document>, more: bool)
    ensures if items == [] then RenderItems(ItemsOf(items), more) == "" && RoomOfItems(items, more) == 0
            else
              var lead, value := Comma(more), Render(ValueOf(items[0]));
              && RenderItems(ItemsOf(items), more) == lead + value + RenderItems(ItemsOf(items[1..]), true)
              && RoomOfItems(items, more) == Both(|lead| + Room(items[0]), |lead + value|, RoomOfItems(items[1..], true))
  {
    hide Render, RenderItems, Room, ValueOf;
    RenderNoItems(more);
    if items != [] {
      RenderFirstItem(ValueOf(items[0]), ItemsOf(items[1..]), more);
    }
  }

  lemma RenderNoItems(more: bool)
    ensures RenderItems([], more) == ""
  {}

  lemma RenderFirstItem(first: Value, rest: seq<Value>, more: bool)
    ensures RenderItems([first] + rest, more) == Comma(more) + Render(first) + RenderItems(rest, true)
  {
    hide Render;
    assert ([first] + rest)[1..] == rest;
  }

  function Keyed(key: Option<string>): string {
    if key.Some? then Quote(key.value) + ":" else ""
  }

  /** Write an object or array, under a key or as an array element. */
  method WriteContainer(w: JsonWriter, key: Option<string>, d: Document)
    requires w.Valid() && Writable(d) && IsContainer(d)
    modifies w, w.buf
    ensures w.Valid() && w.inList
    ensures var lead := Comma(old(w.inList)) + Keyed(key);
            Adds(old(w.Written()), lead + Render(ValueOf(d)), |lead| + Room(d), w.Written(), w.buf.Length)
    decreases d, 1
  {
    hide Adds, Puts, Quote, Render, Room;
    ghost var a, lead := w.Written(), Comma(w.inList) + Keyed(key);
    w.Open(key, if d.Struct? then '{' else '[');
    ghost var b := w.Written();
    if d.Struct? {
      WriteMembers(w, d.members);
    } else {
      WriteItems(w, d.items);
    }
    ghost var c := w.Written();
    w.Close(if d.Struct? then '}' else ']');
    Wrapped(d, lead, a, b, c, w.Written(), w.buf.Length);
  }

  /** Opening, contents and closing together are the rendering. */
  lemma Wrapped(d: Document, lead: string, a: Ink, b: Ink, c: Ink, e: Ink, size: nat)
    requires IsContainer(d) && Puts(a, lead + [if d.Struct? then '{' else '['], b, size)
    requires if d.Struct?
             then Adds(b, RenderMembers(MembersOf(d.members), false), RoomOfMembers(d.members, false), c, size)
             else Adds(b, RenderItems(ItemsOf(d.items), false), RoomOfItems(d.items, false), c, size)
    requires Puts(c, [if d.Struct? then '}' else ']'], e, size)
    ensures Adds(a, lead + Render(ValueOf(d)), |lead| + Room(d), e, size)
  {
    hide Adds, Puts, RenderMembers, RenderItems, RoomOfMembers, RoomOfItems;
    var opening, closing := [if d.Struct? then '{' else '['], [if d.Struct? then '}' else ']'];
    var inner := if d.Struct? then RenderMembers(MembersOf(d.members), false) else RenderItems(ItemsOf(d.items), false);
    var n := if d.Struct? then RoomOfMembers(d.members, false) else RoomOfItems(d.items, false);
    PutsAdds(a, lead + opening, b, size);
    PutsAdds(c, closing, e, size);
    AddsBoth(a, lead + opening, |lead + opening|, b, inner, n, c, size);
    AddsBoth(a, lead + opening + inner, Both(|lead + opening|, |lead + opening|, n), c, closing, 1, e, size);
    assert lead + opening + inner + closing == lead + (opening + inner + closing);
    assert Render(ValueOf(d)) == opening + inner + closing;
  }

  lemma InkFits(w: JsonWriter)
    requires w.Valid()
    ensures |w.Written().text| < w.buf.Length
  {}

  /** The single flag puts every comma where it belongs: unless room ran out, the
      buffer holds exactly the rendering of the document, which reads back as it. */
  method WriteDocument(buf: array<char>, d: Document) returns (w: JsonWriter)
    requires buf.Length > 0 && d.Struct? && Writable(d) && Plain(ValueOf(d))
    modifies buf
    ensures fresh(w) && w.buf == buf && w.Valid()
    ensures !w.overflowed ==> w.Written().text == Render(ValueOf(d)) && ReadValue(w.Written().text) == Some((ValueOf(d), ""))
    ensures w.overflowed <==> Room(d) > buf.Length - 1
    ensures |Render(ValueOf(d))| + 21 < buf.Length ==> !w.overflowed
  {
    w := new JsonWriter(buf);
    ghost var v := ValueOf(d);
    WriteContainer(w, None, d);
    assert Comma(false) + Keyed(None) + Render(v) == Render(v);
    RoomBounds(d);
    ValueRoundTrip(v, "");
    assert Render(v) + "" == Render(v);
  }

  lemma {:induction false} EscapeAppend(a: string, b: string)
    ensures Escape(a + b) == Escape(a) + Escape(b)
  {
    if a == "" {
      assert a + b == b;
    } else {
      assert (a + b)[1..] == a[1..] + b;
      EscapeAppend(a[1..], b);
    }
  }

  lemma EscapeMore(s: string, i: nat)
    requires i < |s|
    ensures Escape(s[..i + 1]) == Escape(s[..i]) + Copied(s[i])
  {
    assert s[..i + 1] == s[..i] + [s[i]];
    EscapeAppend(s[..i], [s[i]]);
    assert [s[i]][1..] == "";
  }
}
