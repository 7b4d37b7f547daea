/**
 JSON documents as trees, their compact text, and a reference parser for that text
 (objects, arrays and strings as in sections 4, 5 and 7 of RFC 8259).

 The escaping is the one of main/json_utils.cpp. Numbers are opaque tokens over the
 characters of a JSON number, because the firmware formats them with Arduino's String.
 */
module JsonText {
  import opened Wrappers

  datatype Json =
    | Str(text: string)
    | Num(token: string)
    | Bool(b: bool)
    | Arr(items: seq<Json>)
    | Obj(members: seq<Member>)

  datatype Member = Member(key: string, val: Json)

  // ----- Escaping -----

  const HEX := "0123456789abcdef"

  /** The text JsonWriter::escape appends for one character. */
  function EscapeChar(c: char): string {
    if c == '\\' then "\\\\"
    else if c == '"' then "\\\""
    else if c == '\n' then "\\n"
    else if c == '\r' then "\\r"
    else if c == '\t' then "\\t"
    else if c as int < 0x20 then "\\u00" + [HEX[c as int / 16], HEX[c as int % 16]]
    else [c]
  }

  function Escape(s: string): string {
    if s == "" then "" else EscapeChar(s[0]) + Escape(s[1..])
  }

  function Quoted(s: string): string {
    "\"" + Escape(s) + "\""
  }

  /**
   What each character is written as: a backslash and a quote are escaped by a backslash,
   line feed, return and tab by their letters, any other control character by four hex
   digits, and every other character is itself.
   */
  lemma EscapesAre(c: char)
    ensures c == 92 as char ==> EscapeChar(c) == [92 as char, 92 as char]
    ensures c == 34 as char ==> EscapeChar(c) == [92 as char, 34 as char]
    ensures c == 10 as char ==> EscapeChar(c) == [92 as char, 'n']
    ensures c == 13 as char ==> EscapeChar(c) == [92 as char, 'r']
    ensures c == 9 as char ==> EscapeChar(c) == [92 as char, 't']
    ensures c as int < 32 && c as int !in {9, 10, 13} ==>
              && |EscapeChar(c)| == 6 && EscapeChar(c)[..4] == [92 as char, 'u', '0', '0']
              && EscapeChar(c)[4] in {'0', '1'} && EscapeChar(c)[5] in "0123456789abcdef"
    ensures c as int >= 32 && c != 92 as char && c != 34 as char ==> EscapeChar(c) == [c]
  {}

  // ----- Printing -----

  function Print(t: Json): string
    decreases t, 1
  {
    match t
    case Str(s) => Quoted(s)
    case Num(token) => token
    case Bool(b) => if b then "true" else "false"
    case Arr(items) => "[" + PrintItems(items, true) + "]"
    case Obj(members) => "{" + PrintMembers(members, true) + "}"
  }

  function Comma(first: bool): string {
    if first then "" else ","
  }

  /** The items of an array; `first` says that no item precedes them. */
  function PrintItems(items: seq<Json>, first: bool): string
    decreases items, 0
  {
    if items == [] then "" else Comma(first) + Print(items[0]) + PrintItems(items[1..], false)
  }

  function PrintMembers(members: seq<Member>, first: bool): string
    decreases members, 0
  {
    if members == [] then ""
    else Comma(first) + Quoted(members[0].key) + ":" + Print(members[0].val) + PrintMembers(members[1..], false)
  }

  /** How many nested objects and arrays the tree opens at once. */
  function Nesting(t: Json): nat
    decreases t, 1
  {
    match t
    case Arr(items) => 1 + ItemsNesting(items)
    case Obj(members) => 1 + MembersNesting(members)
    case _ => 0
  }

  function Max(a: nat, b: nat): nat {
    if a < b then b else a
  }

  function ItemsNesting(items: seq<Json>): nat
    decreases items, 0
  {
    if items == [] then 0 else Max(Nesting(items[0]), ItemsNesting(items[1..]))
  }

  function MembersNesting(members: seq<Member>): nat
    decreases members, 0
  {
    if members == [] then 0 else Max(Nesting(members[0].val), MembersNesting(members[1..]))
  }

  // ----- Parsing -----

  function HexValue(c: char): Option<nat> {
    if '0' <= c <= '9' then Some(c as int - '0' as int)
    else if 'a' <= c <= 'f' then Some(c as int - 'a' as int + 10)
    else if 'A' <= c <= 'F' then Some(c as int - 'A' as int + 10)
    else None
  }

  function HexNumber(s: string): Option<nat>
  {
    if s == "" then Some(0)
    else match (HexNumber(s[..|s| - 1]), HexValue(s[|s| - 1]))
      case (Some(high), Some(low)) => Some(16 * high + low)
      case _ => None
  }

  /** A backslash escape at the front of `s`: the character it denotes and the escape's length. */
  function UnescapeOne(s: string): (r: Option<(char, nat)>)
    requires |s| >= 1 && s[0] == '\\'
    ensures r.Some? ==> 2 <= r.value.1 <= |s|
  {
    if |s| < 2 then None
    else if s[1] == '"' || s[1] == '\\' || s[1] == '/' then Some((s[1], 2))
    else if s[1] == 'b' then Some((8 as char, 2))
    else if s[1] == 'f' then Some((12 as char, 2))
    else if s[1] == 'n' then Some(('\n', 2))
    else if s[1] == 'r' then Some(('\r', 2))
    else if s[1] == 't' then Some(('\t', 2))
    else if s[1] == 'u' && |s| >= 6 then
      match HexNumber(s[2..6])
      case Some(code) => if code < 0xD800 || 0xE000 <= code < 0x10000 then Some((code as char, 6)) else None
      case None => None
    else None
  }

  /** Reads string characters up to the closing quote; the result holds the text and what follows it. */
  function Unescape(s: string): (r: Option<(string, string)>)
    ensures r.Some? ==> |r.value.1| < |s|
    decreases |s|
  {
    if s == "" || (s[0] as int < 0x20) then None
    else if s[0] == '"' then Some(("", s[1..]))
    else
      var step := if s[0] == '\\' then UnescapeOne(s) else Some((s[0], 1));
      if step.None? then None
      else match Unescape(s[step.value.1..])
        case Some((text, rest)) => Some(([step.value.0] + text, rest))
        case None => None
  }

  predicate IsNumberChar(c: char) {
    c in "0123456789+-.eE"
  }

  function NumberLength(s: string): (n: nat)
    ensures n <= |s|
  {
    if s == "" || !IsNumberChar(s[0]) then 0 else 1 + NumberLength(s[1..])
  }

  function ParseValue(s: string): (r: Option<(Json, string)>)
    ensures r.Some? ==> |r.value.1| < |s|
    decreases |s|, 1
  {
    if s == "" then None
    else if s[0] == '"' then
      match Unescape(s[1..])
      case Some((text, rest)) => Some((Str(text), rest))
      case None => None
    else if s[0] == '[' then
      if |s| > 1 && s[1] == ']' then Some((Arr([]), s[2..]))
      else match ParseItems(s[1..])
        case Some((items, rest)) => Some((Arr(items), rest))
        case None => None
    else if s[0] == '{' then
      if |s| > 1 && s[1] == '}' then Some((Obj([]), s[2..]))
      else match ParseMembers(s[1..])
        case Some((members, rest)) => Some((Obj(members), rest))
        case None => None
    else if "true" <= s then Some((Bool(true), s[4..]))
    else if "false" <= s then Some((Bool(false), s[5..]))
    else
      var n := NumberLength(s);
      if n == 0 then None else Some((Num(s[..n]), s[n..]))
  }

  /** One or more items up to the closing bracket. */
  function ParseItems(s: string): (r: Option<(seq<Json>, string)>)
    ensures r.Some? ==> |r.value.1| < |s|
    decreases |s|, 2
  {
    match ParseValue(s)
    case None => None
    case Some((item, rest)) =>
      if rest != "" && rest[0] == ']' then Some(([item], rest[1..]))
      else if rest != "" && rest[0] == ',' then
        match ParseItems(rest[1..])
        case Some((items, rest')) => Some(([item] + items, rest'))
        case None => None
      else None
  }

  /** One or more members up to the closing brace. */
  function ParseMembers(s: string): (r: Option<(seq<Member>, string)>)
    ensures r.Some? ==> |r.value.1| < |s|
    decreases |s|, 2
  {
    if s == "" || s[0] != '"' then None
    else match Unescape(s[1..])
      case None => None
      case Some((key, afterKey)) =>
        if afterKey == "" || afterKey[0] != ':' then None
        else match ParseValue(afterKey[1..])
          case None => None
          case Some((val, rest)) =>
            if rest != "" && rest[0] == '}' then Some(([Member(key, val)], rest[1..]))
            else if rest != "" && rest[0] == ',' then
              match ParseMembers(rest[1..])
              case Some((members, rest')) => Some(([Member(key, val)] + members, rest'))
              case None => None
            else None
  }

  // ----- Strings survive -----

  lemma HexRoundTrip(n: nat)
    requires n < 256
    ensures HexNumber("00" + [HEX[n / 16], HEX[n % 16]]) == Some(n)
  {
    var d := "00" + [HEX[n / 16], HEX[n % 16]];
    HexDigit(n / 16);
    HexDigit(n % 16);
    assert d[..3] == "00" + [HEX[n / 16]];
    assert d[..3][..2] == "00";
    assert "00"[..1] == "0" && "0"[..0] == "";
    assert HexNumber("0") == Some(0);
    assert HexNumber("00") == Some(0);
    assert HexNumber(d[..3]) == Some(n / 16);
  }

  lemma HexDigit(n: nat)
    requires n < 16
    ensures HexValue(HEX[n]) == Some(n)
  {}

  /** One escaped character is read back as that character. */
  lemma UnescapeStep(c: char, rest: string)
    ensures Unescape(EscapeChar(c) + rest) ==
            match Unescape(rest)
            case Some((text, after)) => Some(([c] + text, after))
            case None => None
  {
    var e := EscapeChar(c);
    var s := e + rest;
    assert s[|e|..] == rest;
    if e[0] == '\\' {
      assert s[0] == '\\' && s[1] == e[1];
      if c as int < 0x20 && c != '\n' && c != '\r' && c != '\t' {
        HexRoundTrip(c as int);
        assert s[2..6] == "00" + [HEX[c as int / 16], HEX[c as int % 16]];
        assert UnescapeOne(s) == Some((c, 6));
      } else {
        assert UnescapeOne(s) == Some((c, 2));
      }
    }
  }

  /** unescape(escape(s)) == s, for every string and whatever follows the closing quote. */
  lemma {:induction false} EscapeRoundTrip(s: string, rest: string)
    ensures Unescape(Escape(s) + "\"" + rest) == Some((s, rest))
    decreases |s|
  {
    if s == "" {
      assert Escape(s) + "\"" + rest == "\"" + rest;
    } else {
      var tail := Escape(s[1..]) + "\"" + rest;
      assert Escape(s) + "\"" + rest == EscapeChar(s[0]) + tail;
      UnescapeStep(s[0], tail);
      EscapeRoundTrip(s[1..], rest);
      assert [s[0]] + s[1..] == s;
    }
  }

  // ----- Trees survive -----

  predicate IsToken(s: string) {
    s != "" && forall i | 0 <= i < |s| :: IsNumberChar(s[i])
  }

  /** Strings and booleans are always well formed, and numbers of digits, signs, points and exponents are. */
  lemma LeavesAreWellFormed(s: string, b: bool, n: string)
    ensures WellFormed(Str(s)) && WellFormed(Bool(b))
    ensures n != "" && (forall i | 0 <= i < |n| :: '0' <= n[i] <= '9' || n[i] in {'+', '-', '.', 'e', 'E'}) ==> WellFormed(Num(n))
  {
    if forall i | 0 <= i < |n| :: '0' <= n[i] <= '9' || n[i] in {'+', '-', '.', 'e', 'E'} {
      forall i | 0 <= i < |n|
        ensures IsNumberChar(n[i])
      {
        DigitIsNumberChar(n[i]);
      }
    }
    hide IsNumberChar;
  }

  lemma DigitIsNumberChar(c: char)
    requires '0' <= c <= '9' || c in {'+', '-', '.', 'e', 'E'}
    ensures IsNumberChar(c)
  {
    assert c == '0' || c == '1' || c == '2' || c == '3' || c == '4' || c == '5' || c == '6' || c == '7' || c == '8' || c == '9'
           || c == '+' || c == '-' || c == '.' || c == 'e' || c == 'E';
  }

  /** Every number of the tree is a number token. */
  predicate WellFormed(t: Json)
    decreases t, 1
  {
    match t
    case Num(token) => IsToken(token)
    case Arr(items) => forall i | 0 <= i < |items| :: WellFormed(items[i])
    case Obj(members) => forall i | 0 <= i < |members| :: WellFormed(members[i].val)
    case _ => true
  }

  predicate EndsNumber(rest: string) {
    rest == "" || !IsNumberChar(rest[0])
  }

  lemma {:induction false} TokenIsMaximal(token: string, rest: string)
    requires forall i | 0 <= i < |token| :: IsNumberChar(token[i])
    requires EndsNumber(rest)
    ensures NumberLength(token + rest) == |token|
    decreases |token|
  {
    if token == "" {
      assert token + rest == rest;
    } else {
      assert (token + rest)[1..] == token[1..] + rest;
      TokenIsMaximal(token[1..], rest);
    }
  }

  lemma QuotedParses(s: string, rest: string)
    ensures Quoted(s) + rest != "" && (Quoted(s) + rest)[0] == '"'
    ensures Unescape((Quoted(s) + rest)[1..]) == Some((s, rest))
  {
    assert (Quoted(s) + rest)[1..] == Escape(s) + "\"" + rest;
    EscapeRoundTrip(s, rest);
  }

  /** A printed value starts with neither a closing bracket nor a closing brace. */
  lemma PrintStart(t: Json)
    requires WellFormed(t)
    ensures Print(t) != "" && Print(t)[0] != ']' && Print(t)[0] != '}'
  {}

  lemma NumberCharsAreDistinct(c: char)
    requires IsNumberChar(c)
    ensures c != '"' && c != '[' && c != '{' && c != 't' && c != 'f'
  {}

  lemma TokenParses(token: string, rest: string)
    requires IsToken(token) && EndsNumber(rest)
    ensures ParseValue(token + rest) == Some((Num(token), rest))
  {
    hide NumberLength;
    var s := token + rest;
    TokenIsMaximal(token, rest);
    assert s[..|token|] == token && s[|token|..] == rest;
    assert IsNumberChar(s[0]);
    NumberCharsAreDistinct(s[0]);
    hide IsNumberChar;
    assert !("true" <= s) && !("false" <= s);
  }

  lemma BoolParses(b: bool, rest: string)
    ensures ParseValue((if b then "true" else "false") + rest) == Some((Bool(b), rest))
  {
    if b {
      var s := "true" + rest;
      assert s[4..] == rest;
      assert "true" <= s;
    } else {
      var s := "false" + rest;
      assert s[5..] == rest;
      assert "false" <= s && s[0] == 'f' && "true"[0] == 't';
    }
  }

  lemma EmptyParses(rest: string)
    ensures ParseValue("[]" + rest) == Some((Arr([]), rest))
    ensures ParseValue("{}" + rest) == Some((Obj([]), rest))
  {
    var a, o := "[]" + rest, "{}" + rest;
    assert a[2..] == rest && o[2..] == rest;
  }

  lemma ArrayParses(items: seq<Json>, body: string, rest: string)
    requires body != "" && body[0] != ']'
    requires ParseItems(body + "]" + rest) == Some((items, rest))
    ensures ParseValue("[" + body + "]" + rest) == Some((Arr(items), rest))
  {
    hide ParseItems;
    var s := "[" + body + "]" + rest;
    assert s[1..] == body + "]" + rest;
  }

  lemma ObjectParses(members: seq<Member>, body: string, rest: string)
    requires body != "" && body[0] != '}'
    requires ParseMembers(body + "}" + rest) == Some((members, rest))
    ensures ParseValue("{" + body + "}" + rest) == Some((Obj(members), rest))
  {
    hide ParseMembers;
    var s := "{" + body + "}" + rest;
    assert s[1..] == body + "}" + rest;
  }

  /** The parser inverts the printer, and stops exactly where the printed value ends. */
  lemma {:induction false} PrintRoundTrip(t: Json, rest: string)
    requires WellFormed(t) && EndsNumber(rest)
    ensures ParseValue(Print(t) + rest) == Some((t, rest))
    decreases t, 1
  {
    match t {
      case Str(text) =>
        QuotedParses(text, rest);
      case Num(token) =>
        TokenParses(token, rest);
      case Bool(b) =>
        BoolParses(b, rest);
      case Arr(items) =>
        hide ParseValue;
        if items == [] {
          EmptyParses(rest);
          assert Print(t) == "[]";
        } else {
          ItemsRoundTrip(items, rest);
          PrintStart(items[0]);
          ArrayParses(items, PrintItems(items, true), rest);
        }
      case Obj(members) =>
        hide ParseValue;
        if members == [] {
          EmptyParses(rest);
          assert Print(t) == "{}";
        } else {
          MembersRoundTrip(members, rest);
          ObjectParses(members, PrintMembers(members, true), rest);
        }
    }
  }

  lemma {:induction false} ItemsRoundTrip(items: seq<Json>, rest: string)
    requires items != [] && forall i | 0 <= i < |items| :: WellFormed(items[i])
    ensures ParseItems(PrintItems(items, true) + "]" + rest) == Some((items, rest))
    decreases items, 0
  {
    hide Print, ParseValue;
    var more := items[1..];
    var after := PrintItems(more, false) + "]" + rest;
    assert PrintItems(items, true) + "]" + rest == Print(items[0]) + after;
    PrintRoundTrip(items[0], after);
    if more == [] {
      assert after == "]" + rest && after[1..] == rest;
      assert items == [items[0]];
    } else {
      assert after[1..] == PrintItems(more, true) + "]" + rest;
      ItemsRoundTrip(more, rest);
      assert items == [items[0]] + more;
    }
  }

  /** The parser's step over one member, given what it reads of the key and of the value. */
  lemma MemberStep(m: Member, after: string)
    requires ParseValue(Print(m.val) + after) == Some((m.val, after))
    requires after != ""
    ensures var s := Quoted(m.key) + (":" + Print(m.val) + after);
            && (after[0] == '}' ==> ParseMembers(s) == Some(([m], after[1..])))
            && (after[0] == ',' ==>
                  match ParseMembers(after[1..])
                  case Some((more, rest)) => ParseMembers(s) == Some(([m] + more, rest))
                  case None => true)
  {
    hide Print, ParseValue, Quoted, Unescape;
    var afterKey := ":" + Print(m.val) + after;
    QuotedParses(m.key, afterKey);
    assert afterKey[1..] == Print(m.val) + after;
  }

  lemma MembersText(members: seq<Member>, first: bool)
    requires members != []
    ensures PrintMembers(members, first)
         == Comma(first) + Quoted(members[0].key) + ":" + Print(members[0].val) + PrintMembers(members[1..], false)
  {}

  lemma ItemsText(items: seq<Json>, first: bool)
    requires items != []
    ensures PrintItems(items, first) == Comma(first) + Print(items[0]) + PrintItems(items[1..], false)
  {}

  lemma {:induction false} MembersRoundTrip(members: seq<Member>, rest: string)
    requires members != [] && forall i | 0 <= i < |members| :: WellFormed(members[i].val)
    ensures ParseMembers(PrintMembers(members, true) + "}" + rest) == Some((members, rest))
    decreases members, 0
  {
    hide *;
    var m := members[0];
    var more := members[1..];
    var after := PrintMembers(more, false) + "}" + rest;
    MembersText(members, true);
    CommaText();
    assert PrintMembers(members, true) + "}" + rest == Quoted(m.key) + (":" + Print(m.val) + after);
    if more == [] {
      NoMembersText();
      assert after == "}" + rest && after[1..] == rest;
      BracketEndsNumber(after);
      PrintRoundTrip(m.val, after);
      MemberStep(m, after);
      assert members == [m];
    } else {
      MembersText(more, false);
      MembersText(more, true);
      assert after == "," + (PrintMembers(more, true) + "}" + rest);
      assert after[1..] == PrintMembers(more, true) + "}" + rest;
      BracketEndsNumber(after);
      PrintRoundTrip(m.val, after);
      MemberStep(m, after);
      MembersRoundTrip(more, rest);
      assert members == [m] + more;
    }
  }

  lemma CommaText()
    ensures Comma(true) == "" && Comma(false) == ","
  {}

  lemma NoMembersText()
    ensures PrintMembers([], false) == "" && PrintItems([], false) == ""
  {}

  lemma BracketEndsNumber(s: string)
    requires s != "" && s[0] in ",]}"
    ensures EndsNumber(s)
  {}

  /** A complete document determines its tree. */
  lemma PrintIsInjective(t: Json, u: Json)
    requires WellFormed(t) && WellFormed(u)
    requires Print(t) == Print(u)
    ensures t == u
  {
    PrintRoundTrip(t, "");
    PrintRoundTrip(u, "");
    assert Print(t) + "" == Print(u) + "";
  }
}
