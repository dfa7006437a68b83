/**
 The attention constructor, its event id and the two parsers.  Constructing a recovery
 attention parses the id it recovers, and parsing an id constructs an attention, so
 the three functions are mutually recursive; the length of the named id bounds them.
 */
module AttentionIdentity {
  import opened Prelude
  import opened Text
  import opened Base64Url
  import opened Json
  import opened Attention

  function OriginalText(family: Family, s: Selectors): string {
    if family == Recovery then TextOf(s, ORIGINAL) else ""
  }

  /** What the printer needs of an attention. */
  predicate Printing(a: Attention) {
    && PlainSelectors(a.selectors)
    && (Terminal(a.family) ==> TerminalSelectors(a.selectors))
  }

  function EventId(a: Attention): string
    requires Printing(a)
  {
    if Terminal(a.family) then
      TerminalId(if a.family == RunResult then "RESULT" else "FAILURE",
                 a.selectors["run_id"].text, a.selectors["artifact_sha"].text)
    else
      CanonicalLoads(a.selectors);
      FamilyId(Name(a.family), Encode(Canonical(a.selectors)))
  }

  lemma WordIsPlain(s: string)
    requires Word(s)
    ensures Plain(s)
  {
  }

  lemma JoinIsPlain(a: string, b: string)
    requires Plain(a) && Plain(b)
    ensures Plain(a + ":" + b) && Plain(a + (":" + b))
  {
  }

  lemma FamilyIdIsPlain(name: string, payload: string)
    requires Plain(name) && AllIn(payload, InAlphabet)
    ensures Plain(FamilyId(name, payload))
  {
    assert Plain(payload);
    JoinIsPlain(name, payload);
    assert Plain("v1");
    JoinIsPlain("v1", name + ":" + payload);
    assert Plain("attention");
    JoinIsPlain("attention", "v1" + ":" + (name + ":" + payload));
  }

  lemma TerminalIdIsPlain(kind: string, run: string, sha: string)
    requires Plain(kind) && Plain(run) && Plain(sha)
    ensures Plain(TerminalId(kind, run, sha))
  {
    JoinIsPlain(run, sha);
    JoinIsPlain(kind, run + ":" + sha);
    assert Plain("terminal");
    JoinIsPlain("terminal", kind + ":" + (run + ":" + sha));
  }

  lemma IdIsPlain(a: Attention)
    requires Printing(a)
    ensures Plain(EventId(a))
  {
    if Terminal(a.family) {
      assert Plain("RESULT") && Plain("FAILURE");
      assert "run_id" in a.selectors && "artifact_sha" in a.selectors;
      TerminalIdIsPlain(if a.family == RunResult then "RESULT" else "FAILURE",
                        a.selectors["run_id"].text, a.selectors["artifact_sha"].text);
    } else {
      NamesAreWords(a.family);
      WordIsPlain(Name(a.family));
      CanonicalLoads(a.selectors);
      DecodeEncode(Canonical(a.selectors));
      FamilyIdIsPlain(Name(a.family), Encode(Canonical(a.selectors)));
    }
  }

  lemma TerminalFields(s: Selectors)
    requires Fields(RunResult, s) || Fields(RunFailure, s)
    ensures TerminalSelectors(s)
  {
    assert "run_id" in TERMINAL && "artifact_sha" in TERMINAL;
  }

  lemma FieldsPrint(family: Family, s: Selectors)
    requires Fields(family, s) && (family == Recovery ==> Plain(TextOf(s, ORIGINAL)))
    ensures Printing(Attention(family, s))
  {
    assert PlainSelectors(s) by {
      FieldsArePlain(family, s);
    }
    assert Terminal(family) ==> TerminalSelectors(s) by {
      if Terminal(family) {
        TerminalFields(s);
      }
    }
  }

  /** A loaded object names an original shorter than the text it was loaded from. */
  lemma LoadedIsShorter(family: Family, raw: string)
    requires LoadObject(raw).Some?
    ensures |OriginalText(family, ToMap(LoadObject(raw).value))| < |raw|
  {
    var ms := LoadObject(raw).value;
    ParseIsShorter(raw);
    if StartsWith(raw, BOM) {
      ParseIsShorter(raw[3..]);
    }
    ToMapFinds(ms);
    if ORIGINAL in ToMap(ms) {
      assert Member(ORIGINAL, ToMap(ms)[ORIGINAL]) in ms;
    }
  }

  function Construct(family: Family, s: Selectors): (r: Option<Attention>)
    ensures r.Some? ==> r.value == Attention(family, s) && Printing(r.value)
    decreases |OriginalText(family, s)|, 4
  {
    if Fields(family, s) && CrossChecks(family, s) && (family == Recovery ==> OriginalOk(TextOf(s, ORIGINAL))) then
      FieldsPrint(family, s);
      var a := Attention(family, s);
      if |Render(a)| <= MAX_BYTES && |EventId(a)| <= MAX_BYTES then Some(a) else None
    else None
  }

  predicate OriginalOk(id: string)
    ensures OriginalOk(id) ==> Plain(id)
    decreases |id|, 3
  {
    && !StartsWith(id, "attention:v1:" + Name(Recovery) + ":")
    && ParseEventId(id).Some?
    && ParseEventId(id).value.family != Recovery
  }

  function ParseEventId(id: string): (r: Option<Attention>)
    ensures r.Some? ==> Plain(id)
    decreases |id|, 2
  {
    if !(0 < |id| <= MAX_BYTES) then None
    else
      var item := ParseParts(Split(id), |id|);
      if item.Some? && EventId(item.value) == id then
        IdIsPlain(item.value);
        item
      else None
  }

  /** The four parts of an id, all shorter than the id itself. */
  function ParseParts(parts: seq<string>, size: nat): (r: Option<Attention>)
    requires forall i :: 0 <= i < |parts| ==> |parts[i]| + (if |parts| > 1 then 1 else 0) <= size
    ensures r.Some? ==> Printing(r.value)
    decreases size, 1
  {
    if |parts| != 4 then None
    else if parts[0] == "terminal" && parts[1] in {"RESULT", "FAILURE"} then
      assert |parts[0]| + 1 <= size;
      Construct(if parts[1] == "RESULT" then RunResult else RunFailure,
                map["run_id" := Str(parts[2]), "artifact_sha" := Str(parts[3])])
    else if parts[0] == "attention" && parts[1] == "v1" then ParsePayload(FamilyOf(parts[2]), parts[3], size)
    else None
  }

  function ParsePayload(name: Option<Family>, payload: string, size: nat): (r: Option<Attention>)
    requires |payload| < size
    ensures r.Some? ==> Printing(r.value)
    decreases size, 0
  {
    match name
    case None => None
    case Some(family) =>
      if Terminal(family) || payload == "" || !AllIn(payload, InAlphabet) then None
      else
        match Decode(payload)
        case None => None
        case Some(raw) =>
          match LoadObject(raw)
          case None => None
          case Some(ms) =>
            LoadedIsShorter(family, raw);
            Construct(family, ToMap(ms))
  }

  /** The attentions the constructor makes. */
  ghost predicate Valid(a: Attention) {
    Construct(a.family, a.selectors) == Some(a)
  }

  // ----- Ids: printing and parsing are inverse -----

  lemma {:induction false} FourParts(a: string, b: string, c: string, d: string)
    requires ':' !in a && ':' !in b && ':' !in c && ':' !in d
    ensures Split(a + ":" + (b + ":" + (c + ":" + d))) == [a, b, c, d]
  {
    SplitPart(a, b + ":" + (c + ":" + d));
    SplitPart(b, c + ":" + d);
    SplitPart(c, d);
    SplitLast(d);
    assert [a] + ([b] + ([c] + [d])) == [a, b, c, d];
  }

  lemma ConstructedFields(a: Attention)
    requires Valid(a)
    ensures Printing(a) && Fields(a.family, a.selectors) && 0 < |EventId(a)| <= MAX_BYTES
    ensures |Render(a)| <= MAX_BYTES
  {
  }

  lemma NoColons(s: string, ok: char -> bool)
    requires AllIn(s, ok) && !ok(':')
    ensures ':' !in s
  {
  }

  lemma TerminalSelectorsAreTwo(s: Selectors)
    requires Fields(RunResult, s) || Fields(RunFailure, s)
    ensures TerminalSelectors(s) && ':' !in s["run_id"].text && ':' !in s["artifact_sha"].text
    ensures s == map["run_id" := s["run_id"], "artifact_sha" := s["artifact_sha"]]
  {
    TerminalFields(s);
    assert TERMINAL["run_id"] == RunName && TERMINAL["artifact_sha"] == Sha40;
    assert Matches(s["run_id"], RunName) && Matches(s["artifact_sha"], Sha40);
    NoColons(s["run_id"].text, NameChar);
    NoColons(s["artifact_sha"].text, Hex);
    assert s.Keys == {"run_id", "artifact_sha"};
  }

  lemma ParseTerminalParts(result: bool, run: string, sha: string, size: nat)
    requires |run| < size && |sha| < size && 9 <= size
    ensures ParseParts(["terminal", if result then "RESULT" else "FAILURE", run, sha], size) ==
            Construct(if result then RunResult else RunFailure, map["run_id" := Str(run), "artifact_sha" := Str(sha)])
  {
    assert "RESULT"[0] != "FAILURE"[0];
  }

  lemma FamilyHead(name: string, payload: string, size: nat)
    requires |payload| < size && |name| < size && 10 <= size
    ensures ParseParts(["attention", "v1", name, payload], size) == ParsePayload(FamilyOf(name), payload, size)
  {
    assert "attention"[0] != "terminal"[0];
  }

  lemma ParseFamilyParts(family: Family, payload: string, size: nat)
    requires |payload| < size && |Name(family)| < size && 10 <= size
    requires !Terminal(family) && payload != "" && AllIn(payload, InAlphabet)
    requires Decode(payload).Some? && LoadObject(Decode(payload).value).Some?
    ensures ParseParts(["attention", "v1", Name(family), payload], size) ==
            Construct(family, ToMap(LoadObject(Decode(payload).value).value))
  {
    FamilyOfName(family);
    FamilyHead(Name(family), payload, size);
    LoadedIsShorter(family, Decode(payload).value);
  }

  lemma TerminalIdParts(kind: string, run: string, sha: string)
    requires kind == "RESULT" || kind == "FAILURE"
    requires ':' !in run && ':' !in sha
    ensures Split(TerminalId(kind, run, sha)) == ["terminal", kind, run, sha]
    ensures |run| + |sha| + 9 <= |TerminalId(kind, run, sha)|
  {
    FourParts("terminal", kind, run, sha);
  }

  lemma TerminalIdOf(family: Family, run: string, sha: string)
    requires Terminal(family) && Printing(Attention(family, map["run_id" := Str(run), "artifact_sha" := Str(sha)]))
    ensures EventId(Attention(family, map["run_id" := Str(run), "artifact_sha" := Str(sha)])) ==
            TerminalId(if family == RunResult then "RESULT" else "FAILURE", run, sha)
  {
  }

  lemma TerminalParses(family: Family, run: string, sha: string)
    requires Terminal(family) && Printing(Attention(family, map["run_id" := Str(run), "artifact_sha" := Str(sha)]))
    requires ':' !in run && ':' !in sha
    ensures var s := map["run_id" := Str(run), "artifact_sha" := Str(sha)];
            var id := EventId(Attention(family, s));
            ParseParts(Split(id), |id|) == Construct(family, s)
  {
    TerminalIdOf(family, run, sha);
    var kind := if family == RunResult then "RESULT" else "FAILURE";
    TerminalIdParts(kind, run, sha);
    ParseTerminalParts(family == RunResult, run, sha, |TerminalId(kind, run, sha)|);
  }

  lemma TerminalPartsBack(a: Attention)
    requires Valid(a) && Terminal(a.family)
    ensures Printing(a) && ParseParts(Split(EventId(a)), |EventId(a)|) == Some(a)
  {
    ConstructedFields(a);
    TerminalSelectorsAreTwo(a.selectors);
    var run, sha := a.selectors["run_id"].text, a.selectors["artifact_sha"].text;
    assert a.selectors == map["run_id" := Str(run), "artifact_sha" := Str(sha)];
    TerminalParses(a.family, run, sha);
  }

  lemma LoadedBack(s: Selectors)
    requires PlainSelectors(s)
    ensures OneByteEach(Canonical(s)) && Canonical(s) != ""
    ensures AllIn(Encode(Canonical(s)), InAlphabet) && Decode(Encode(Canonical(s))) == Some(Canonical(s))
    ensures |Encode(Canonical(s))| <= MAX_BYTES ==>
              LoadObject(Canonical(s)).Some? && ToMap(LoadObject(Canonical(s)).value) == s
  {
    CanonicalLoads(s);
    DecodeEncode(Canonical(s));
    ToMapOfSorted(s);
  }

  lemma FamilyIdParts(name: string, payload: string)
    requires Word(name) && AllIn(payload, InAlphabet)
    ensures Split(FamilyId(name, payload)) == ["attention", "v1", name, payload]
    ensures |payload| < |FamilyId(name, payload)|
  {
    assert ':' !in payload;
    FourParts("attention", "v1", name, payload);
  }

  lemma FamilyPartsBack(a: Attention)
    requires Valid(a) && !Terminal(a.family)
    ensures Printing(a) && ParseParts(Split(EventId(a)), |EventId(a)|) == Some(a)
  {
    ConstructedFields(a);
    LoadedBack(a.selectors);
    NamesAreWords(a.family);
    var payload := Encode(Canonical(a.selectors));
    assert EventId(a) == FamilyId(Name(a.family), payload);
    FamilyIdParts(Name(a.family), payload);
    ParseFamilyParts(a.family, payload, |EventId(a)|);
  }

  lemma PartsAreValid(parts: seq<string>, size: nat)
    requires forall i :: 0 <= i < |parts| ==> |parts[i]| + (if |parts| > 1 then 1 else 0) <= size
    requires ParseParts(parts, size).Some?
    ensures Valid(ParseParts(parts, size).value)
  {
  }

  /** Ids and attentions correspond one to one: a string is accepted exactly when it is the id of a valid attention. */
  lemma ParseInvertsPrint(id: string, a: Attention)
    ensures ParseEventId(id) == Some(a) <==> Valid(a) && EventId(a) == id
  {
    if Valid(a) {
      ConstructedFields(a);
      if EventId(a) == id {
        if Terminal(a.family) {
          TerminalPartsBack(a);
        } else {
          FamilyPartsBack(a);
        }
      }
    }
    if ParseEventId(id) == Some(a) {
      PartsAreValid(Split(id), |id|);
    }
  }

  lemma IdsAreDistinct(a: Attention, b: Attention)
    requires Valid(a) && Valid(b)
    ensures Printing(a) && Printing(b) && (EventId(a) == EventId(b) ==> a == b)
  {
    ConstructedFields(a);
    ConstructedFields(b);
    ParseInvertsPrint(EventId(a), a);
    ParseInvertsPrint(EventId(b), b);
  }

  /** A different spelling of the same selectors is refused, and one exists for every id with room for it. */
  lemma SpacedSpelling(a: Attention, other: string)
    requires Valid(a) && !Terminal(a.family)
    requires OneByteEach(" " + Canonical(a.selectors))
    requires other == FamilyId(Name(a.family), Encode(" " + Canonical(a.selectors))) && |other| <= MAX_BYTES
    ensures ParseParts(Split(other), |other|) == Some(a)
    ensures ParseEventId(other) == None
  {
    ConstructedFields(a);
    SpacedParts(a.family, a.selectors, other);
  }

  lemma SpacedParts(family: Family, s: Selectors, other: string)
    requires PlainSelectors(s) && !Terminal(family) && OneByteEach(" " + Canonical(s))
    requires other == FamilyId(Name(family), Encode(" " + Canonical(s))) && |other| <= MAX_BYTES
    ensures ParseParts(Split(other), |other|) == Construct(family, s)
    ensures other != EventId(Attention(family, s))
  {
    var raw := " " + Canonical(s);
    NamesAreWords(family);
    DecodeEncode(raw);
    FamilyIdParts(Name(family), Encode(raw));
    SpacedLoads(s);
    ParseFamilyParts(family, Encode(raw), |other|);
    LongerPayload(s, raw);
    if other == EventId(Attention(family, s)) {
      SamePayload(Name(family), Encode(raw), Encode(Canonical(s)));
    }
  }

  lemma LongerPayload(s: Selectors, raw: string)
    requires PlainSelectors(s) && OneByteEach(raw) && raw == " " + Canonical(s)
    ensures OneByteEach(Canonical(s)) && AllIn(Encode(Canonical(s)), InAlphabet) && Encode(raw) != Encode(Canonical(s))
  {
    CanonicalLoads(s);
    DecodeEncode(raw);
    DecodeEncode(Canonical(s));
    assert |raw| != |Canonical(s)|;
  }

  lemma SamePayload(name: string, a: string, b: string)
    requires Word(name) && AllIn(a, InAlphabet) && AllIn(b, InAlphabet) && FamilyId(name, a) == FamilyId(name, b)
    ensures a == b
  {
    FamilyIdParts(name, a);
    FamilyIdParts(name, b);
    assert Split(FamilyId(name, a))[3] == Split(FamilyId(name, b))[3];
  }

  lemma SpacedLoads(s: Selectors)
    requires PlainSelectors(s) && |Canonical(s)| < MAX_BYTES
    ensures LoadObject(" " + Canonical(s)).Some? && ToMap(LoadObject(" " + Canonical(s)).value) == s
  {
    CanonicalLoads(s);
    ToMapOfSorted(s);
    SpaceIsSkipped(Canonical(s));
  }

  lemma SpaceIsSkipped(text: string)
    requires |text| < MAX_BYTES && StartsWith(text, "{")
    ensures LoadObject(" " + text) == LoadObject(text)
  {
    assert !StartsWith(text, BOM) by {
      assert text[0] == '{';
    }
    assert !StartsWith(" " + text, BOM) by {
      assert (" " + text)[0] == ' ';
    }
    ParseSkipsSpace(text);
  }

  // ----- Recovery -----

  /** A recovery attention may name exactly the ids of valid attentions that are not themselves recoveries. */
  lemma RecoverableIds(id: string)
    ensures OriginalOk(id) <==> exists b :: Valid(b) && b.family != Recovery && EventId(b) == id
  {
    if OriginalOk(id) {
      var b := ParseEventId(id).value;
      ParseInvertsPrint(id, b);
      assert Valid(b) && b.family != Recovery && EventId(b) == id;
    }
    if b :| Valid(b) && b.family != Recovery && EventId(b) == id {
      ParseInvertsPrint(id, b);
      ConstructedFields(b);
      NotRecoveryPrefix(b);
    }
  }

  lemma NotRecoveryPrefix(b: Attention)
    requires Printing(b) && b.family != Recovery
    ensures !StartsWith(EventId(b), "attention:v1:" + Name(Recovery) + ":")
  {
    if Terminal(b.family) {
      assert EventId(b)[0] == 't';
    } else {
      LoadedBack(b.selectors);
      NoRecoveryPrefix(b.family, Encode(Canonical(b.selectors)));
    }
  }

  lemma NoRecoveryPrefix(family: Family, payload: string)
    requires family != Recovery && AllIn(payload, InAlphabet)
    ensures !StartsWith(FamilyId(Name(family), payload), "attention:v1:" + Name(Recovery) + ":")
  {
    NamesAreWords(family);
    NamesAreWords(Recovery);
    if StartsWith(FamilyId(Name(family), payload), "attention:v1:" + Name(Recovery) + ":") {
      OtherPrefix(Name(family), Name(Recovery), payload);
      NamesDiffer(family, Recovery);
    }
  }

  lemma OtherPrefix(name: string, other: string, payload: string)
    requires Word(name) && Word(other) && AllIn(payload, InAlphabet)
    requires StartsWith(FamilyId(name, payload), "attention:v1:" + other + ":")
    ensures name == other
  {
    var id, prefix := FamilyId(name, payload), "attention:v1:" + other + ":";
    var rest := id[|prefix|..];
    FamilyIdParts(name, payload);
    PrefixParts(other, rest);
    assert id == prefix + rest;
    Reassociate(other, rest);
  }

  lemma Reassociate(name: string, rest: string)
    ensures "attention:v1:" + name + ":" + rest == "attention" + ":" + ("v1" + ":" + (name + ":" + rest))
  {
    assert "attention:v1:" == "attention" + ":" + "v1" + ":";
  }

  lemma PrefixParts(name: string, rest: string)
    requires Word(name)
    ensures |Split("attention" + ":" + ("v1" + ":" + (name + ":" + rest)))| >= 3
    ensures Split("attention" + ":" + ("v1" + ":" + (name + ":" + rest)))[2] == name
  {
    SplitPart("attention", "v1" + ":" + (name + ":" + rest));
    SplitPart("v1", name + ":" + rest);
    SplitPart(name, rest);
  }

  // ----- Bodies -----

  function ParseBody(raw: string): Option<Attention> {
    match LoadObject(raw)
    case None => None
    case Some(ms) =>
      var body := ToMap(ms);
      if body.Keys != {"family", "format", "selectors", "version"} then None
      else if body["format"] != Str(FORMAT) || body["version"] != Num(1) then None
      else if !body["family"].Str? || !body["selectors"].Object? then None
      else
        match FamilyOf(body["family"].text)
        case None => None
        case Some(family) => Construct(family, ToMap(body["selectors"].members))
  }

  lemma RenderLoads(a: Attention)
    requires PlainSelectors(a.selectors)
    ensures 0 < |Render(a)| <= MAX_BYTES ==> LoadObject(Render(a)) == Some(BodyMembers(a))
  {
    SortedArePrintable(a.selectors);
    NamesAreWords(a.family);
    WordIsPlain(Name(a.family));
    BodyIsPrintable(a);
    ParsePrinted(BodyMembers(a));
    assert Render(a)[0] == '{';
  }

  lemma BodyWordsArePlain()
    ensures Plain("family") && Plain("format") && Plain("selectors") && Plain("version") && Plain(FORMAT)
  {
  }

  lemma BodyIsPrintable(a: Attention)
    requires PrintableMembers(SortedMembers(a.selectors)) && Plain(Name(a.family))
    ensures PrintableMembers(BodyMembers(a))
  {
    BodyWordsArePlain();
    var ms := BodyMembers(a);
    assert DistinctKeys(ms) by {
      assert "family"[1] != "format"[1];
    }
    assert Printable(ms[0].value) && Printable(ms[1].value) && Printable(ms[2].value) && Printable(ms[3].value);
  }

  lemma BodyFields(a: Attention)
    ensures var body := ToMap(BodyMembers(a));
            && body.Keys == {"family", "format", "selectors", "version"}
            && body["family"] == Str(Name(a.family)) && body["format"] == Str(FORMAT)
            && body["selectors"] == Object(SortedMembers(a.selectors)) && body["version"] == Num(1)
  {
    var ms := BodyMembers(a);
    ToMapPrepends(ms[3], []);
    ToMapPrepends(ms[2], [ms[3]]);
    ToMapPrepends(ms[1], [ms[2], ms[3]]);
    ToMapPrepends(ms[0], [ms[1], ms[2], ms[3]]);
    assert ms == [ms[0]] + ([ms[1]] + ([ms[2]] + ([ms[3]] + [])));
    assert "family"[1] != "format"[1];
  }

  lemma ToMapPrepends(m: Member, rest: seq<Member>)
    ensures ToMap([m] + rest) == ToMap(rest)[m.key := m.value]
  {
  }

  /** A rendered body parses to the attention it was rendered from. */
  lemma ParseBodyInvertsRender(a: Attention)
    requires Valid(a)
    ensures ParseBody(Render(a)) == Some(a)
  {
    ConstructedFields(a);
    RenderLoads(a);
    BodyFields(a);
    ToMapOfSorted(a.selectors);
    FamilyOfName(a.family);
  }

  /** Whatever spelling is accepted, the attention is a valid one, so rendering it gives its one canonical body. */
  lemma AcceptedBodyRenders(raw: string, a: Attention)
    requires ParseBody(raw) == Some(a)
    ensures Valid(a) && ParseBody(Render(a)) == Some(a) && Printing(a) && ParseEventId(EventId(a)) == Some(a)
  {
    ParseBodyInvertsRender(a);
    ConstructedFields(a);
    ParseInvertsPrint(EventId(a), a);
  }

  lemma BodiesAreDistinct(a: Attention, b: Attention)
    requires Valid(a) && Valid(b) && Render(a) == Render(b)
    ensures a == b
  {
    ParseBodyInvertsRender(a);
    ParseBodyInvertsRender(b);
  }
}
