/**
 JSON as attention identities and bodies use it.  The printer is the compact one; the
 parser takes any spacing, any key order and escaped spellings, so that a canonical
 spelling is something a caller has to check.  Arrays, negative and fractional numbers
 and characters outside the plain ones are refused here; the source refuses a value
 that contains one a step later, since no selector admits it.
 */
module Json {
  import opened Prelude
  import opened Text

  datatype Member = Member(key: string, value: Json)

  datatype Json =
    | Str(text: string)
    | Num(n: nat)
    | Flag(b: bool)
    | Null
    | Object(members: seq<Member>)

  /** Printable ASCII that JSON prints as itself. */
  predicate PlainChar(c: char) {
    ' ' <= c <= '~' && c != '"' && c != '\\'
  }

  predicate Plain(s: string) {
    AllIn(s, PlainChar)
  }

  predicate DistinctKeys(ms: seq<Member>) {
    forall i, j :: 0 <= i < j < |ms| ==> ms[i].key != ms[j].key
  }

  /** Values the compact printer renders without an escape. */
  predicate Printable(j: Json) {
    match j
    case Str(t) => Plain(t)
    case Object(ms) => PrintableMembers(ms)
    case _ => true
  }

  predicate PrintableMembers(ms: seq<Member>) {
    DistinctKeys(ms) && forall i :: 0 <= i < |ms| ==> Plain(ms[i].key) && Printable(ms[i].value)
  }

  function Quote(t: string): string {
    "\"" + t + "\""
  }

  function Print(j: Json): string {
    match j
    case Str(t) => Quote(t)
    case Num(n) => NatText(n)
    case Flag(b) => if b then "true" else "false"
    case Null => "null"
    case Object(ms) => "{" + PrintMembers(ms) + "}"
  }

  function PrintMembers(ms: seq<Member>): string {
    if ms == [] then ""
    else
      var first := Quote(ms[0].key) + ":" + Print(ms[0].value);
      if |ms| == 1 then first else first + "," + PrintMembers(ms[1..])
  }

  // ----- Parser: each function returns what it read and the rest of the text -----

  predicate Space(c: char) {
    c == ' ' || c == '\t' || c == '\n' || c == '\r'
  }

  function Skip(s: string): (r: string)
    ensures |r| <= |s|
  {
    if s != "" && Space(s[0]) then Skip(s[1..]) else s
  }

  predicate HexDigit(c: char) {
    Digit(c) || 'a' <= c <= 'f' || 'A' <= c <= 'F'
  }

  function HexValue(c: char): int
    requires HexDigit(c)
  {
    if Digit(c) then c as int - '0' as int
    else if 'a' <= c <= 'f' then c as int - 'a' as int + 10
    else c as int - 'A' as int + 10
  }

  /** What follows a backslash, if it stands for a plain character: that character and the length read. */
  function ReadEscape(s: string): (r: Option<(char, nat)>)
    ensures r.Some? ==> PlainChar(r.value.0) && 1 <= r.value.1 <= |s|
  {
    if s != "" && s[0] == '/' then Some(('/', 1))
    else if |s| >= 5 && s[0] == 'u' && AllIn(s[1..5], HexDigit) then
      var code := HexValue(s[1]) * 4096 + HexValue(s[2]) * 256 + HexValue(s[3]) * 16 + HexValue(s[4]);
      if 32 <= code <= 126 && PlainChar(code as char) then Some((code as char, 5)) else None
    else None
  }

  ghost predicate HexSpells(d: char, v: int) {
    (0 <= v < 10 && d as int == '0' as int + v) || (10 <= v < 16 && (d as int == 'a' as int + v - 10 || d as int == 'A' as int + v - 10))
  }

  lemma HexExactly(d: char, v: int)
    ensures HexDigit(d) && HexValue(d) == v <==> HexSpells(d, v)
  {
  }

  /** The escapes read: a solidus, and the two low hexadecimal digits of a plain character after two zeros. */
  lemma EscapesExactly(s: string, c: char, n: nat)
    ensures ReadEscape(s) == Some((c, n)) <==>
              || (c == '/' && n == 1 && s != "" && s[0] == '/')
              || (PlainChar(c) && n == 5 && |s| >= 5 && s[..3] == "u00" &&
                  exists hi, lo :: HexSpells(s[3], hi) && HexSpells(s[4], lo) && hi * 16 + lo == c as int)
  {
    if |s| >= 5 {
      assert AllIn(s[1..5], HexDigit) <==> HexDigit(s[1]) && HexDigit(s[2]) && HexDigit(s[3]) && HexDigit(s[4]) by {
        assert s[1..5] == [s[1], s[2], s[3], s[4]];
      }
      if HexDigit(s[3]) && HexDigit(s[4]) {
        HexExactly(s[3], HexValue(s[3]));
        HexExactly(s[4], HexValue(s[4]));
      }
      assert s[..3] == [s[0], s[1], s[2]];
    }
  }

  function ReadText(s: string): (r: Option<(string, string)>)
    ensures r.Some? ==> |r.value.0| + |r.value.1| < |s|
  {
    if s == "" then None
    else if s[0] == '"' then Some(("", s[1..]))
    else if s[0] == '\\' then
      match ReadEscape(s[1..])
      case None => None
      case Some((c, n)) =>
        (match ReadText(s[1 + n..])
         case None => None
         case Some((t, rest)) => Some(([c] + t, rest)))
    else if !PlainChar(s[0]) then None
    else
      match ReadText(s[1..])
      case None => None
      case Some((t, rest)) => Some(([s[0]] + t, rest))
  }

  function ReadString(s: string): (r: Option<(string, string)>)
    ensures r.Some? ==> |r.value.0| + |r.value.1| < |s|
  {
    if s != "" && s[0] == '"' then ReadText(s[1..]) else None
  }

  function DigitCount(s: string): (n: nat)
    ensures n <= |s| && AllIn(s[..n], Digit)
  {
    if s != "" && Digit(s[0]) then 1 + DigitCount(s[1..]) else 0
  }

  function ReadValue(s: string): (r: Option<(Json, string)>)
    ensures r.Some? ==> |r.value.1| < |s|
    decreases |s|, 1
  {
    if s == "" then None
    else if s[0] == '"' then
      match ReadString(s)
      case None => None
      case Some((t, rest)) => Some((Str(t), rest))
    else if Digit(s[0]) then
      var n := DigitCount(s);
      if n > 1 && s[0] == '0' then None else Some((Num(DigitsValue(s[..n])), s[n..]))
    else if StartsWith(s, "true") then Some((Flag(true), s[4..]))
    else if StartsWith(s, "false") then Some((Flag(false), s[5..]))
    else if StartsWith(s, "null") then Some((Null, s[4..]))
    else if s[0] == '{' then
      var inside := Skip(s[1..]);
      if inside != "" && inside[0] == '}' then Some((Object([]), inside[1..]))
      else
        match ReadMembers(inside)
        case None => None
        case Some((ms, rest)) => Some((Object(ms), rest))
    else None
  }

  /** One member or more, up to and including the closing brace; a repeated key is refused. */
  function ReadMembers(s: string): (r: Option<(seq<Member>, string)>)
    ensures r.Some? ==> |r.value.1| < |s|
    decreases |s|, 0
  {
    match ReadString(s)
    case None => None
    case Some((key, afterKey)) =>
      var colon := Skip(afterKey);
      if colon == "" || colon[0] != ':' then None
      else
        match ReadValue(Skip(colon[1..]))
        case None => None
        case Some((value, afterValue)) =>
          var next := Skip(afterValue);
          if next == "" then None
          else if next[0] == '}' then Some(([Member(key, value)], next[1..]))
          else if next[0] != ',' then None
          else
            match ReadMembers(Skip(next[1..]))
            case None => None
            case Some((more, rest)) =>
              if exists m :: m in more && m.key == key then None
              else Some(([Member(key, value)] + more, rest))
  }

  /** The whole text is one object, with white space around it. */
  function Parse(s: string): Option<seq<Member>> {
    match ReadValue(Skip(s))
    case Some((Object(ms), rest)) => if Skip(rest) == "" then Some(ms) else None
    case _ => None
  }

  lemma ParseSkipsSpace(s: string)
    ensures Parse(" " + s) == Parse(s)
  {
    assert (" " + s)[1..] == s;
    assert Skip(" " + s) == Skip(s);
  }

  // ----- What is read is shorter than the text it is read from -----

  ghost predicate TextsBelow(j: Json, n: nat) {
    match j
    case Str(t) => |t| < n
    case Object(ms) => forall m :: m in ms && m.value.Str? ==> |m.value.text| < n
    case _ => true
  }

  lemma {:induction false} ReadIsShorter(s: string)
    ensures ReadValue(s).Some? ==> TextsBelow(ReadValue(s).value.0, |s|)
    decreases |s|, 1
  {
    if s != "" && s[0] == '{' {
      var inside := Skip(s[1..]);
      if !(inside != "" && inside[0] == '}') {
        ReadMembersIsShorter(inside);
      }
    }
  }

  lemma {:induction false} ReadMembersIsShorter(s: string)
    ensures ReadMembers(s).Some? ==> TextsBelow(Object(ReadMembers(s).value.0), |s|)
    decreases |s|, 0
  {
    if ReadMembers(s).Some? {
      var value := Skip(Skip(ReadString(s).value.1)[1..]);
      ReadIsShorter(value);
      var next := Skip(ReadValue(value).value.1);
      if next[0] == ',' {
        ReadMembersIsShorter(Skip(next[1..]));
      }
    }
  }

  lemma ParseIsShorter(s: string)
    ensures Parse(s).Some? ==> TextsBelow(Object(Parse(s).value), |s|)
  {
    ReadIsShorter(Skip(s));
  }

  // ----- What is printed is ASCII -----

  predicate Ascii(c: char) {
    c as int < 128
  }

  lemma {:induction false} PrintedIsAscii(j: Json)
    requires Printable(j)
    ensures AllIn(Print(j), Ascii)
  {
    match j
    case Num(n) => NatTextValue(n);
    case Object(ms) => PrintedMembersAreAscii(j, ms);
    case _ =>
  }

  lemma {:induction false} PrintedMembersAreAscii(outer: Json, ms: seq<Member>)
    requires PrintableMembers(ms) && forall i :: 0 <= i < |ms| ==> ms[i].value < outer
    ensures AllIn(PrintMembers(ms), Ascii)
    decreases outer, 0, |ms|
  {
    if ms != [] {
      PrintedIsAscii(ms[0].value);
      TailPrintable(outer, ms);
      PrintedMembersAreAscii(outer, ms[1..]);
    }
  }

  // ----- Round trip -----

  lemma {:induction false} ReadPrintedText(t: string, rest: string)
    requires Plain(t)
    ensures ReadText(t + "\"" + rest) == Some((t, rest))
  {
    if t == "" {
      assert t + "\"" + rest == "\"" + rest;
    } else {
      assert (t + "\"" + rest)[1..] == t[1..] + "\"" + rest;
      ReadPrintedText(t[1..], rest);
      assert t == [t[0]] + t[1..];
    }
  }

  lemma ReadQuoted(t: string, rest: string)
    requires Plain(t)
    ensures ReadString(Quote(t) + rest) == Some((t, rest))
  {
    assert (Quote(t) + rest)[1..] == t + "\"" + rest;
    ReadPrintedText(t, rest);
  }

  lemma {:induction false} CountPrintedDigits(d: string, rest: string)
    requires AllIn(d, Digit) && (rest == "" || !Digit(rest[0]))
    ensures DigitCount(d + rest) == |d|
  {
    if d == "" {
      assert d + rest == rest;
    } else {
      assert (d + rest)[1..] == d[1..] + rest;
      CountPrintedDigits(d[1..], rest);
    }
  }

  lemma ReadNumber(n: nat, rest: string)
    requires rest == "" || !Digit(rest[0])
    ensures NatText(n) != "" && Digit(NatText(n)[0])
    ensures ReadValue(NatText(n) + rest) == Some((Num(n), rest))
  {
    var s := NatText(n) + rest;
    NatTextValue(n);
    CountPrintedDigits(NatText(n), rest);
    assert s[..|NatText(n)|] == NatText(n) && s[|NatText(n)|..] == rest;
    assert s[0] == NatText(n)[0];
  }

  lemma ReadKeyword(word: string, rest: string)
    requires word in {"true", "false", "null"}
    ensures ReadValue(word + rest) ==
            Some((if word == "true" then Flag(true) else if word == "false" then Flag(false) else Null, rest))
  {
    assert (word + rest)[|word|..] == rest;
    assert (word + rest)[0] == word[0];
    assert (word + rest)[..|word|] == word;
  }

  /** The first character decides that an object is read. */
  lemma ReadObject(s: string)
    requires s != "" && s[0] == '{'
    ensures var inside := Skip(s[1..]);
            ReadValue(s) ==
              if inside != "" && inside[0] == '}' then Some((Object([]), inside[1..]))
              else if ReadMembers(inside).None? then None
              else Some((Object(ReadMembers(inside).value.0), ReadMembers(inside).value.1))
  {
    assert !Digit(s[0]) && s[0] != '"';
    assert !StartsWith(s, "true") && !StartsWith(s, "false") && !StartsWith(s, "null") by {
      assert "true"[0] == 't' && "false"[0] == 'f' && "null"[0] == 'n';
    }
  }

  lemma ReadBraces(inside: string, ms: seq<Member>, rest: string)
    requires inside != "" && !Space(inside[0])
    requires if inside[0] == '}' then ms == [] && rest == inside[1..] else ReadMembers(inside) == Some((ms, rest))
    ensures ReadValue("{" + inside) == Some((Object(ms), rest))
  {
    assert ("{" + inside)[1..] == inside;
    assert Skip(inside) == inside;
    ReadObject("{" + inside);
  }

  /** The last member: its value is followed by the closing brace. */
  lemma ReadLastMember(s: string, key: string, value: Json, text: string, rest: string)
    requires ReadString(s) == Some((key, ":" + text)) && text != "" && !Space(text[0])
    requires ReadValue(text) == Some((value, "}" + rest))
    ensures ReadMembers(s) == Some(([Member(key, value)], rest))
  {
    assert (":" + text)[1..] == text && ("}" + rest)[1..] == rest;
  }

  lemma ReadOneMember(s: string, key: string, value: Json, text: string, next: string, more: seq<Member>, rest: string)
    requires ReadString(s) == Some((key, ":" + text)) && text != "" && !Space(text[0])
    requires ReadValue(text) == Some((value, "," + next)) && next != "" && !Space(next[0])
    requires ReadMembers(next) == Some((more, rest)) && forall m :: m in more ==> m.key != key
    ensures ReadMembers(s) == Some(([Member(key, value)] + more, rest))
  {
    assert (":" + text)[1..] == text && ("," + next)[1..] == next;
  }

  lemma {:induction false} ReadPrinted(j: Json, rest: string)
    requires Printable(j) && (rest == "" || !Digit(rest[0]))
    ensures Print(j) != "" && !Space(Print(j)[0])
    ensures ReadValue(Print(j) + rest) == Some((j, rest))
    decreases j, 2
  {
    match j
    case Str(t) => ReadQuoted(t, rest);
    case Num(n) => ReadNumber(n, rest);
    case Flag(b) => ReadKeyword(Print(j), rest);
    case Null => ReadKeyword(Print(j), rest);
    case Object(ms) => ReadPrintedObject(j, ms, rest);
  }

  lemma ReadPrintedObject(j: Json, ms: seq<Member>, rest: string)
    requires j == Object(ms) && PrintableMembers(ms)
    ensures ReadValue(Print(j) + rest) == Some((j, rest))
    decreases j, 1
  {
    var inside := PrintMembers(ms) + "}" + rest;
    assert Print(j) + rest == "{" + inside;
    if ms == [] {
      assert inside == "}" + rest && inside[1..] == rest;
    } else {
      ReadPrintedMembers(j, ms, rest);
      StartsWithQuote(ms, rest);
    }
    ReadBraces(inside, ms, rest);
  }

  /** What follows the value of the first member. */
  function AfterFirst(ms: seq<Member>, rest: string): string
    requires ms != []
  {
    if |ms| == 1 then "}" + rest else "," + (PrintMembers(ms[1..]) + "}" + rest)
  }

  lemma Regroup(key: string, value: string, more: string, rest: string)
    ensures key + ":" + value + "}" + rest == key + (":" + (value + ("}" + rest)))
    ensures key + ":" + value + "," + more + "}" + rest == key + (":" + (value + ("," + (more + "}" + rest))))
  {
  }

  lemma MembersText(ms: seq<Member>, rest: string)
    requires ms != []
    ensures PrintMembers(ms) + "}" + rest == Quote(ms[0].key) + (":" + (Print(ms[0].value) + AfterFirst(ms, rest)))
  {
    Regroup(Quote(ms[0].key), Print(ms[0].value), PrintMembers(ms[1..]), rest);
  }

  lemma StartsWithQuote(ms: seq<Member>, rest: string)
    requires ms != []
    ensures var s := PrintMembers(ms) + "}" + rest; s != "" && s[0] == '"'
  {
  }

  /** The first key and the first value are read back, whatever follows. */
  lemma ReadFirst(outer: Json, ms: seq<Member>, rest: string)
    requires outer.Object? && ms != [] && PrintableMembers(ms)
    requires ms[0].value < outer
    ensures var text := Print(ms[0].value) + AfterFirst(ms, rest);
            && ReadString(PrintMembers(ms) + "}" + rest) == Some((ms[0].key, ":" + text))
            && ReadValue(text) == Some((ms[0].value, AfterFirst(ms, rest)))
            && text != "" && !Space(text[0])
    decreases outer, 0, 0
  {
    var text := Print(ms[0].value) + AfterFirst(ms, rest);
    MembersText(ms, rest);
    ReadQuoted(ms[0].key, ":" + text);
    ReadPrinted(ms[0].value, AfterFirst(ms, rest));
    assert text[0] == Print(ms[0].value)[0];
  }

  lemma {:induction false} ReadPrintedMembers(outer: Json, ms: seq<Member>, rest: string)
    requires outer.Object? && ms != [] && PrintableMembers(ms)
    requires forall i :: 0 <= i < |ms| ==> ms[i].value < outer
    ensures ReadMembers(PrintMembers(ms) + "}" + rest) == Some((ms, rest))
    decreases outer, 0, |ms|
  {
    var s, text := PrintMembers(ms) + "}" + rest, Print(ms[0].value) + AfterFirst(ms, rest);
    TailPrintable(outer, ms);
    ReadFirst(outer, ms, rest);
    if |ms| == 1 {
      ReadLastMember(s, ms[0].key, ms[0].value, text, rest);
      assert ms == [Member(ms[0].key, ms[0].value)];
    } else {
      ReadPrintedMembers(outer, ms[1..], rest);
      StartsWithQuote(ms[1..], rest);
      ReadOneMember(s, ms[0].key, ms[0].value, text, PrintMembers(ms[1..]) + "}" + rest, ms[1..], rest);
    }
  }

  lemma TailPrintable(outer: Json, ms: seq<Member>)
    requires ms != [] && PrintableMembers(ms) && forall i :: 0 <= i < |ms| ==> ms[i].value < outer
    ensures PrintableMembers(ms[1..]) && forall i :: 0 <= i < |ms[1..]| ==> ms[1..][i].value < outer
    ensures forall m :: m in ms[1..] ==> m.key != ms[0].key
    ensures ms == [Member(ms[0].key, ms[0].value)] + ms[1..]
  {
  }

  /** Printing and parsing an object gives it back, members in the same order. */
  lemma ParsePrinted(ms: seq<Member>)
    requires PrintableMembers(ms)
    ensures Parse(Print(Object(ms))) == Some(ms)
  {
    ReadPrinted(Object(ms), "");
    assert Print(Object(ms)) + "" == Print(Object(ms));
  }
}
