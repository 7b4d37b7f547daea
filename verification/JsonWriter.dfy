/**
 JsonWriter of main/json_utils.cpp: an emitter that decides where commas go from a
 stack of open containers and one flag. Driven by a tree's traversal it appends
 exactly that tree's text, and leaves the stack where it found it.
 */
module JsonWriters {
  import Wrappers
  import opened JsonText

  /** `kind` is 'o' for an object and 'a' for an array; `first` until an element was written. */
  datatype Frame = Frame(kind: char, first: bool)

  const STACK_SIZE := 16

  class JsonWriter {
    var out: string
    const stack: array<Frame>
    var depth: nat
    var expectingValue: bool

    ghost predicate Valid()
      reads this, stack
    {
      stack.Length == STACK_SIZE && depth <= STACK_SIZE
    }

    /** The open containers, outermost first. */
    ghost function Frames(): (s: seq<Frame>)
      reads this, stack
      requires Valid()
      ensures |s| == depth
    {
      stack[..depth]
    }

    constructor ()
      ensures Valid() && fresh(stack)
      ensures out == "" && Frames() == [] && !expectingValue
    {
      out := "";
      stack := new Frame[STACK_SIZE](_ => Frame('o', true));
      depth := 0;
      expectingValue := false;
    }

    /** Writes the comma a value needs, unless a key has just announced the value. */
    method BeforeValue()
      requires Valid()
      modifies this`out, stack
      ensures Valid()
      ensures out == old(out) + Separator(old(Frames()), expectingValue)
      ensures Frames() == AfterValue(old(Frames()), expectingValue)
    {
      if expectingValue || depth <= 0 {
        return;
      }
      var f := stack[depth - 1];
      if f.kind == 'a' {
        if !f.first {
          out := out + ",";
        }
        stack[depth - 1] := f.(first := false);
      }
    }

    method Begin(kind: char, bracket: string)
      requires Valid() && depth < STACK_SIZE
      modifies this, stack
      ensures Valid() && !expectingValue
      ensures out == old(out) + Separator(old(Frames()), old(expectingValue)) + bracket
      ensures Frames() == AfterValue(old(Frames()), old(expectingValue)) + [Frame(kind, true)]
    {
      BeforeValue();
      out := out + bracket;
      stack[depth] := Frame(kind, true);
      depth := depth + 1;
      expectingValue := false;
    }

    method BeginObject()
      requires Valid() && depth < STACK_SIZE
      modifies this, stack
      ensures Valid() && !expectingValue
      ensures out == old(out) + Separator(old(Frames()), old(expectingValue)) + "{"
      ensures Frames() == AfterValue(old(Frames()), old(expectingValue)) + [Frame('o', true)]
    {
      Begin('o', "{");
    }

    method BeginArray()
      requires Valid() && depth < STACK_SIZE
      modifies this, stack
      ensures Valid() && !expectingValue
      ensures out == old(out) + Separator(old(Frames()), old(expectingValue)) + "["
      ensures Frames() == AfterValue(old(Frames()), old(expectingValue)) + [Frame('a', true)]
    {
      Begin('a', "[");
    }

    method End(bracket: string)
      requires Valid()
      modifies this
      ensures Valid() && !expectingValue
      ensures out == old(out) + bracket
      ensures Frames() == if old(Frames()) == [] then [] else old(Frames())[..old(depth) - 1]
    {
      out := out + bracket;
      if depth > 0 {
        depth := depth - 1;
      }
      expectingValue := false;
    }

    method EndObject()
      requires Valid()
      modifies this
      ensures Valid() && !expectingValue
      ensures out == old(out) + "}"
      ensures Frames() == if old(Frames()) == [] then [] else old(Frames())[..old(depth) - 1]
    {
      End("}");
    }

    method EndArray()
      requires Valid()
      modifies this
      ensures Valid() && !expectingValue
      ensures out == old(out) + "]"
      ensures Frames() == if old(Frames()) == [] then [] else old(Frames())[..old(depth) - 1]
    {
      End("]");
    }

    /** A key outside an object is ignored. */
    method Key(key: string)
      requires Valid()
      modifies this, stack
      ensures Valid()
      ensures var f := old(Frames());
              if f == [] || f[|f| - 1].kind != 'o' then
                out == old(out) && Frames() == f && expectingValue == old(expectingValue)
              else
                && out == old(out) + Comma(f[|f| - 1].first) + Quoted(key) + ":"
                && Frames() == f[|f| - 1 := f[|f| - 1].(first := false)]
                && expectingValue
    {
      if depth <= 0 || stack[depth - 1].kind != 'o' {
        return;
      }
      if !stack[depth - 1].first {
        out := out + ",";
      }
      stack[depth - 1] := stack[depth - 1].(first := false);
      AppendEscapedString(key);
      out := out + ":";
      expectingValue := true;
    }

    /** The common shape of the typed emitters and of rawValue: the text is already JSON. */
    method RawValue(rawJson: string)
      requires Valid()
      modifies this, stack
      ensures Valid() && !expectingValue
      ensures out == old(out) + Separator(old(Frames()), old(expectingValue)) + rawJson
      ensures Frames() == AfterValue(old(Frames()), old(expectingValue))
    {
      BeforeValue();
      out := out + rawJson;
      expectingValue := false;
    }

    method StringValue(text: string)
      requires Valid()
      modifies this, stack
      ensures Valid() && !expectingValue
      ensures out == old(out) + Separator(old(Frames()), old(expectingValue)) + Quoted(text)
      ensures Frames() == AfterValue(old(Frames()), old(expectingValue))
    {
      BeforeValue();
      AppendEscapedString(text);
      expectingValue := false;
    }

    method AppendEscapedString(text: string)
      modifies this`out
      ensures out == old(out) + Quoted(text)
    {
      out := out + "\"";
      var e := EscapeString(text);
      out := out + e;
      out := out + "\"";
    }

    // ----- The traversal of a document -----

    /** Emits a whole document: its text follows the separator, and the stack is as after one value. */
    method Write(t: Json)
      requires Valid() && depth + Nesting(t) <= STACK_SIZE
      modifies this, stack
      ensures Valid() && !expectingValue
      ensures out == old(out) + Separator(old(Frames()), old(expectingValue)) + Print(t)
      ensures Frames() == AfterValue(old(Frames()), old(expectingValue))
      decreases t, 2
    {
      hide *;
      TreeText(t);
      match t {
        case Str(text) =>
          StringValue(text);
        case Num(token) =>
          RawValue(token);
        case Bool(b) =>
          RawValue(if b then "true" else "false");
        case Arr(items) =>
          WriteArray(items);
        case Obj(members) =>
          WriteObject(members);
      }
    }

    method WriteArray(items: seq<Json>)
      requires Valid() && depth + 1 + ItemsNesting(items) <= STACK_SIZE
      modifies this, stack
      ensures Valid() && !expectingValue
      ensures out == old(out) + Separator(old(Frames()), old(expectingValue)) + ("[" + PrintItems(items, true) + "]")
      ensures Frames() == AfterValue(old(Frames()), old(expectingValue))
      decreases items, 1
    {
      hide PrintItems, ItemsNesting;
      ghost var f := AfterValue(Frames(), expectingValue);
      BeginArray();
      assert Frames()[..depth - 1] == f;
      WriteItems(items);
      EndArray();
      assert Frames() == f;
    }

    method WriteObject(members: seq<Member>)
      requires Valid() && depth + 1 + MembersNesting(members) <= STACK_SIZE
      modifies this, stack
      ensures Valid() && !expectingValue
      ensures out == old(out) + Separator(old(Frames()), old(expectingValue)) + ("{" + PrintMembers(members, true) + "}")
      ensures Frames() == AfterValue(old(Frames()), old(expectingValue))
      decreases members, 1
    {
      hide PrintMembers, MembersNesting;
      ghost var f := AfterValue(Frames(), expectingValue);
      BeginObject();
      assert Frames()[..depth - 1] == f;
      WriteMembers(members);
      EndObject();
      assert Frames() == f;
    }

    method WriteItems(items: seq<Json>)
      requires Valid() && !expectingValue && depth + ItemsNesting(items) <= STACK_SIZE
      requires depth > 0 && Frames()[depth - 1].kind == 'a'
      modifies this, stack
      ensures Valid() && !expectingValue && depth == old(depth)
      ensures out == old(out) + PrintItems(items, old(Frames())[depth - 1].first)
      ensures Frames()[..depth - 1] == old(Frames())[..depth - 1]
      decreases items, 0
    {
      hide Print, PrintItems, Nesting;
      EmptyText();
      if items != [] {
        ghost var f := Frames();
        ItemsText(items, f[depth - 1].first);
        Write(items[0]);
        assert Frames() == f[depth - 1 := Frame('a', false)];
        WriteItems(items[1..]);
      }
    }

    method WriteMembers(members: seq<Member>)
      requires Valid() && !expectingValue && depth + MembersNesting(members) <= STACK_SIZE
      requires depth > 0 && Frames()[depth - 1].kind == 'o'
      modifies this, stack
      ensures Valid() && !expectingValue && depth == old(depth)
      ensures out == old(out) + PrintMembers(members, old(Frames())[depth - 1].first)
      ensures Frames()[..depth - 1] == old(Frames())[..depth - 1]
      decreases members, 0
    {
      hide Print, PrintMembers, Nesting, Quoted;
      EmptyText();
      if members != [] {
        ghost var f := Frames();
        MembersText(members, f[depth - 1].first);
        Key(members[0].key);
        assert Frames() == f[depth - 1 := Frame('o', false)];
        Write(members[0].val);
        assert Frames() == f[depth - 1 := Frame('o', false)];
        WriteMembers(members[1..]);
      }
    }
  }

  /** The text written before a value: a comma between two items of the innermost array. */
  function Separator(frames: seq<Frame>, expecting: bool): string {
    if !expecting && frames != [] && frames[|frames| - 1].kind == 'a' then Comma(frames[|frames| - 1].first) else ""
  }

  /** The stack after a value: the innermost array is no longer empty. */
  function AfterValue(frames: seq<Frame>, expecting: bool): (r: seq<Frame>)
    ensures |r| == |frames|
  {
    var n := |frames|;
    if !expecting && n > 0 && frames[n - 1].kind == 'a' then frames[n - 1 := frames[n - 1].(first := false)] else frames
  }

  lemma TreeText(t: Json)
    ensures t.Str? ==> Print(t) == Quoted(t.text)
    ensures t.Num? ==> Print(t) == t.token
    ensures t.Bool? ==> Print(t) == if t.b then "true" else "false"
    ensures t.Arr? ==> Print(t) == "[" + PrintItems(t.items, true) + "]" && Nesting(t) == 1 + ItemsNesting(t.items)
    ensures t.Obj? ==> Print(t) == "{" + PrintMembers(t.members, true) + "}" && Nesting(t) == 1 + MembersNesting(t.members)
  {}

  lemma EmptyText()
    ensures PrintItems([], true) == PrintItems([], false) == ""
    ensures PrintMembers([], true) == PrintMembers([], false) == ""
  {}

  /** The body of the loop of JsonWriter::escape. */
  method AppendEscapedChar(text: string, c: char) returns (e: string)
    ensures e == text + EscapeChar(c)
  {
    match c {
      case '\\' => e := text + "\\\\";
      case '"' => e := text + "\\\"";
      case '\n' => e := text + "\\n";
      case '\r' => e := text + "\\r";
      case '\t' => e := text + "\\t";
      case _ =>
        if c as int < 0x20 {
          e := text + "\\u00";
          e := e + [HEX[c as int / 16 % 16]];
          e := e + [HEX[c as int % 16]];
        } else {
          e := text + [c];
        }
    }
  }

  /** JsonWriter::escape */
  method EscapeString(text: string) returns (e: string)
    ensures e == Escape(text)
  {
    hide Escape, EscapeChar;
    e := "";
    var i := 0;
    assert text[0..] == text;
    while i < |text|
      invariant 0 <= i <= |text|
      invariant e + Escape(text[i..]) == Escape(text)
    {
      ghost var before := e;
      EscapeFrom(text, i);
      e := AppendEscapedChar(e, text[i]);
      assert before + Escape(text[i..]) == e + Escape(text[i + 1..]);
      i := i + 1;
    }
    EscapeFrom(text, i);
  }

  lemma EscapeFrom(text: string, i: nat)
    requires i <= |text|
    ensures Escape(text[i..]) == if i == |text| then "" else EscapeChar(text[i]) + Escape(text[i + 1..])
  {
    if i < |text| {
      assert text[i..][1..] == text[i + 1..];
    }
  }

  /** A fresh writer driven by a document yields text from which a parser recovers the document. */
  method WriteDocument(t: Json) returns (text: string)
    requires WellFormed(t) && Nesting(t) <= STACK_SIZE
    ensures text == Print(t)
    ensures ParseValue(text) == Wrappers.Some((t, ""))
  {
    var w := new JsonWriter();
    w.Write(t);
    text := w.out;
    PrintRoundTrip(t, "");
    assert text + "" == text;
  }
}
