/** Recovery of a JSON object from a text-generation reply, and the
    fully-defaulted records built from it (the backend's `utils.py`).

    `json.loads` is foreign code: it is the parameter `parse`, which returns
    `None` exactly where `json.loads` raises `JSONDecodeError`. */
module Extractor {
  import opened Wrappers
  import opened Json
  import Patterns
  import Records

  type Parser = string -> Option<Json>

  /** What Python raises: `.get` on a non-dict is an `AttributeError`;
      iterating `None`, a bool or a number is a `TypeError`. */
  datatype PyError = AttributeError | TypeError

  // ---------------------------------------------------------------------
  // parse_gpt_json: an ordered chain of recovery strategies
  // ---------------------------------------------------------------------

  /** The three places a JSON document may be found, in decreasing confidence. */
  datatype Strategy = WholeText | FencedBlock | BraceSpan

  const Strategies: seq<Strategy> := [WholeText, FencedBlock, BraceSpan]

  /** The text a strategy hands to the parser, if its search matched. */
  function Candidate(s: Strategy, text: string): (c: Option<string>)
    ensures s == WholeText ==> c == Some(text)
    ensures s != WholeText && c.Some? ==> Patterns.IsBraced(c.value)
  {
    match s
    case WholeText => Some(text)
    case FencedBlock => Patterns.FencedBody(text)
    case BraceSpan => Patterns.BraceSpan(text)
  }

  /** One strategy: search, then parse what was found. */
  function Attempt(s: Strategy, text: string, parse: Parser): Option<Json>
  {
    match Candidate(s, text)
    case None => None
    case Some(c) => parse(c)
  }

  /** The first strategy of `order` whose attempt succeeds, with its
      position and value; later strategies are not consulted. */
  function FirstSuccess(order: seq<Strategy>, text: string, parse: Parser): (r: Option<(nat, Json)>)
    ensures r.Some? ==> r.value.0 < |order| && Attempt(order[r.value.0], text, parse) == Some(r.value.1)
    ensures r.Some? ==> forall k :: 0 <= k < r.value.0 ==> Attempt(order[k], text, parse).None?
    ensures r.None? ==> forall k :: 0 <= k < |order| ==> Attempt(order[k], text, parse).None?
  {
    if |order| == 0 then None
    else match Attempt(order[0], text, parse)
      case Some(v) => Some((0, v))
      case None =>
        match FirstSuccess(order[1..], text, parse)
        case None => None
        case Some((i, v)) => Some((i + 1, v))
  }

  /** `parse_gpt_json`: the empty reply gives `{}` without any attempt;
      otherwise the whole text, the fenced body and the brace span are tried
      in that order and the first that parses wins; `{}` if none does. */
  function ParseGptJson(text: string, parse: Parser): (r: Json)
    ensures |text| == 0 ==> r == EmptyObject
    ensures |text| > 0 && parse(text).Some? ==> r == parse(text).value
    ensures |text| > 0 && parse(text).None? && Attempt(FencedBlock, text, parse).Some? ==>
      r == Attempt(FencedBlock, text, parse).value
    ensures (|text| > 0 && parse(text).None? && Attempt(FencedBlock, text, parse).None?
             && Attempt(BraceSpan, text, parse).Some?) ==> r == Attempt(BraceSpan, text, parse).value
    ensures (|text| > 0 && parse(text).None? && Attempt(FencedBlock, text, parse).None?
             && Attempt(BraceSpan, text, parse).None?) ==> r == EmptyObject
  {
    if |text| == 0 then EmptyObject
    else
      assert Strategies[0] == WholeText && Strategies[1] == FencedBlock && Strategies[2] == BraceSpan;
      assert Attempt(WholeText, text, parse) == parse(text);
      match FirstSuccess(Strategies, text, parse)
      case Some((_, v)) => v
      case None => EmptyObject
  }

  /** What `json.loads` guarantees for a text that starts with `{`: if it
      parses at all, it is an object. */
  ghost predicate BracedParsesToObject(parse: Parser) {
    forall s :: Patterns.IsBraced(s) && parse(s).Some? ==> parse(s).value.JObj?
  }

  /** Only the whole-text attempt can produce something other than an
      object: the fallbacks feed the parser braced text only. */
  lemma NonObjectOnlyFromWholeText(text: string, parse: Parser)
    requires BracedParsesToObject(parse)
    ensures !ParseGptJson(text, parse).JObj? ==> |text| > 0 && parse(text) == Some(ParseGptJson(text, parse))
  {
    if |text| > 0 && parse(text).None? {
      var f := Candidate(FencedBlock, text);
      var b := Candidate(BraceSpan, text);
      if f.Some? && parse(f.value).Some? {
        assert parse(f.value).value.JObj?;
      } else if b.Some? && parse(b.value).Some? {
        assert parse(b.value).value.JObj?;
      }
    }
  }

  /** A reply that wraps an object in a `json`-tagged fence yields that
      object when the reply as a whole does not parse. */
  lemma TaggedReplyParses(prose: string, obj: string, parse: Parser, v: Json)
    requires Patterns.NoBacktick(prose) && Patterns.NoBacktick(obj) && Patterns.IsBraced(obj)
    requires parse(Patterns.TaggedReply(prose, obj)).None? && parse(obj) == Some(v)
    ensures ParseGptJson(Patterns.TaggedReply(prose, obj), parse) == v
  {
    Patterns.TaggedReplyBody(prose, obj);
  }

  /** The reply `Here you go:` followed by a `json`-tagged fence around
      `{"summary": "ok"}` gives the object `{"summary": "ok"}` when the reply
      as a whole does not parse. */
  lemma SummaryReplyExample(parse: Parser)
    requires parse(Patterns.TaggedReply("Here you go:\n", "{\"summary\": \"ok\"}")).None?
    requires parse("{\"summary\": \"ok\"}") == Some(JObj(map["summary" := JStr("ok")]))
    ensures ParseGptJson(Patterns.TaggedReply("Here you go:\n", "{\"summary\": \"ok\"}"), parse)
            == JObj(map["summary" := JStr("ok")])
  {
    Patterns.TaggedReplyExample();
  }

  /** A reply that wraps one object in prose without a fence yields that
      object when the reply as a whole does not parse: the brace span is
      exactly the object. */
  lemma BraceReplyParses(prose: string, obj: string, tail: string, parse: Parser, v: Json)
    requires Patterns.IsBraced(obj)
    requires forall i :: 0 <= i < |prose| ==> prose[i] != '{'
    requires forall i :: 0 <= i < |tail| ==> tail[i] != '}'
    requires Patterns.NoBacktick(prose + obj + tail)
    requires parse(prose + obj + tail).None? && parse(obj) == Some(v)
    ensures ParseGptJson(prose + obj + tail, parse) == v
  {
    Patterns.BraceSpanOf(prose, obj, tail);
    Patterns.NoFenceNoBody(prose + obj + tail);
  }

  /** A reply with neither a backtick nor a `{` yields `{}` unless the whole
      text parses. */
  lemma PlainProseGivesEmptyObject(text: string, parse: Parser)
    requires parse(text).None?
    requires forall i :: 0 <= i < |text| ==> text[i] != '`' && text[i] != '{'
    ensures ParseGptJson(text, parse) == EmptyObject
  {
    Patterns.NoFenceNoBody(text);
    Patterns.BraceBoundsExist(text);
  }

  // ---------------------------------------------------------------------
  // Records with defaults
  // ---------------------------------------------------------------------

  /** The dict literal `{k: parsed.get(k, d), ...}`: one entry per key of
      `defaults`, taken from `parsed` when present there. */
  function WithDefaults(parsed: map<string, Json>, defaults: map<string, Json>): (r: map<string, Json>)
    ensures r.Keys == defaults.Keys
    ensures forall k :: k in r && k in parsed ==> r[k] == parsed[k]
    ensures forall k :: k in r && k !in parsed ==> r[k] == defaults[k]
  {
    map k | k in defaults :: Get(parsed, k, defaults[k])
  }

  /** Defaulting twice is defaulting once. */
  lemma WithDefaultsIdempotent(parsed: map<string, Json>, defaults: map<string, Json>)
    ensures WithDefaults(WithDefaults(parsed, defaults), defaults) == WithDefaults(parsed, defaults)
  {
  }

  /** A reply that already holds every key, and nothing else, comes back
      unchanged. */
  lemma WithDefaultsKeepsComplete(parsed: map<string, Json>, defaults: map<string, Json>)
    requires parsed.Keys == defaults.Keys
    ensures WithDefaults(parsed, defaults) == parsed
  {
  }

  const DigestKeys: set<string> := {"summary", "highlights", "insights", "action_items", "questions"}

  /** `""` for the summary, `[]` for each list. */
  const DigestDefaults: map<string, Json> :=
    map k | k in DigestKeys :: if k == "summary" then JStr("") else JArr([])

  const SmartNotesKeys: set<string> := {"summary", "structured_notes", "flashcards", "quizzes", "eli12"}

  /** `""` for the two texts, `[]` for each list. */
  const SmartNotesDefaults: map<string, Json> :=
    map k | k in SmartNotesKeys :: if k == "summary" || k == "eli12" then JStr("") else JArr([])

  /** `extract_structured_digest`: five keys, present values passed through,
      `""` for a missing summary and `[]` for a missing list.  A reply that
      decodes to a non-object makes `.get` raise. */
  function ExtractDigest(text: string, parse: Parser): (r: Result<map<string, Json>, PyError>)
    ensures r.Err? <==> !ParseGptJson(text, parse).JObj?
    ensures r.Err? ==> r.error == AttributeError
    ensures r.Ok? ==> r.value.Keys == {"summary", "highlights", "insights", "action_items", "questions"}
    ensures r.Ok? ==> forall k :: k in r.value && k in ParseGptJson(text, parse).fields ==>
      r.value[k] == ParseGptJson(text, parse).fields[k]
    ensures r.Ok? ==> forall k :: k in r.value && k !in ParseGptJson(text, parse).fields ==>
      r.value[k] == if k == "summary" then JStr("") else JArr([])
  {
    match ParseGptJson(text, parse)
    case JObj(m) => Ok(WithDefaults(m, DigestDefaults))
    case _ => Err(AttributeError)
  }

  /** `extract_smartnotes`: the same construction over its five keys, with
      `""` defaults for `summary` and `eli12`. */
  function ExtractSmartNotes(text: string, parse: Parser): (r: Result<map<string, Json>, PyError>)
    ensures r.Err? <==> !ParseGptJson(text, parse).JObj?
    ensures r.Err? ==> r.error == AttributeError
    ensures r.Ok? ==> r.value.Keys == {"summary", "structured_notes", "flashcards", "quizzes", "eli12"}
    ensures r.Ok? ==> forall k :: k in r.value && k in ParseGptJson(text, parse).fields ==>
      r.value[k] == ParseGptJson(text, parse).fields[k]
    ensures r.Ok? ==> forall k :: k in r.value && k !in ParseGptJson(text, parse).fields ==>
      r.value[k] == if k == "summary" || k == "eli12" then JStr("") else JArr([])
  {
    match ParseGptJson(text, parse)
    case JObj(m) => Ok(WithDefaults(m, SmartNotesDefaults))
    case _ => Err(AttributeError)
  }

  /** The JSON object the generation service is asked to return for a digest. */
  function DigestToJson(d: Records.DigestData): map<string, Json>
  {
    map[
      "summary" := JStr(d.summary),
      "highlights" := StrArray(d.highlights),
      "insights" := StrArray(d.insights),
      "action_items" := StrArray(d.actionItems),
      "questions" := StrArray(d.questions)]
  }

  function StrArray(xs: seq<string>): Json
  {
    JArr(seq(|xs|, i requires 0 <= i < |xs| => JStr(xs[i])))
  }

  /** A well-formed digest reply is extracted exactly as sent. */
  lemma DigestRoundTrip(text: string, parse: Parser, d: Records.DigestData)
    requires |text| > 0 && parse(text) == Some(JObj(DigestToJson(d)))
    ensures ExtractDigest(text, parse) == Ok(DigestToJson(d))
  {
    var m := DigestToJson(d);
    assert ParseGptJson(text, parse) == JObj(m);
    assert ExtractDigest(text, parse).Ok?;
    var r := ExtractDigest(text, parse).value;
    assert m.Keys == {"summary", "highlights", "insights", "action_items", "questions"};
    assert r.Keys == m.Keys;
    forall k | k in r
      ensures r[k] == m[k]
    {
      assert k in ParseGptJson(text, parse).fields;
    }
    assert r == m;
  }

  /** The JSON object the generation service is asked to return for smart notes. */
  function SmartNotesToJson(n: Records.SmartNotesData): map<string, Json>
  {
    map[
      "summary" := JStr(n.summary),
      "structured_notes" := StrArray(n.structuredNotes),
      "flashcards" := JArr(seq(|n.flashcards|, i requires 0 <= i < |n.flashcards| =>
        JObj(map k | k in n.flashcards[i] :: JStr(n.flashcards[i][k])))),
      "quizzes" := StrArray(n.quizzes),
      "eli12" := JStr(n.eli12)]
  }

  /** A well-formed smart-notes reply is extracted exactly as sent. */
  lemma SmartNotesRoundTrip(text: string, parse: Parser, n: Records.SmartNotesData)
    requires |text| > 0 && parse(text) == Some(JObj(SmartNotesToJson(n)))
    ensures ExtractSmartNotes(text, parse) == Ok(SmartNotesToJson(n))
  {
    var m := SmartNotesToJson(n);
    assert ParseGptJson(text, parse) == JObj(m);
    assert ExtractSmartNotes(text, parse).Ok?;
    var r := ExtractSmartNotes(text, parse).value;
    assert m.Keys == {"summary", "structured_notes", "flashcards", "quizzes", "eli12"};
    assert r.Keys == m.Keys;
    forall k | k in r
      ensures r[k] == m[k]
    {
      assert k in ParseGptJson(text, parse).fields;
    }
    assert r == m;
  }

  /** The reply `{}` gives the all-default digest. */
  lemma DigestOfEmptyObject(text: string, parse: Parser)
    requires |text| > 0 && parse(text) == Some(EmptyObject)
    ensures ExtractDigest(text, parse) == Ok(map[
      "summary" := JStr(""), "highlights" := JArr([]), "insights" := JArr([]),
      "action_items" := JArr([]), "questions" := JArr([])])
  {
    assert ParseGptJson(text, parse) == EmptyObject;
    assert ExtractDigest(text, parse).Ok?;
    var r := ExtractDigest(text, parse).value;
    var expected := map[
      "summary" := JStr(""), "highlights" := JArr([]), "insights" := JArr([]),
      "action_items" := JArr([]), "questions" := JArr([])];
    assert expected.Keys == {"summary", "highlights", "insights", "action_items", "questions"};
    assert r.Keys == expected.Keys;
    forall k | k in r
      ensures r[k] == expected[k]
    {
      assert k !in EmptyObject.fields;
    }
    assert r == expected;
  }

  /** A reply that is a bare JSON list parses whole, to a list, and the
      digest extraction then raises instead of returning defaults. */
  lemma ListReplyRaises(parse: Parser)
    requires parse("[]") == Some(JArr([]))
    ensures ExtractDigest("[]", parse) == Err(AttributeError)
  {
  }

  /** The dict `parse_gpt_json` is documented to return: what was recovered
      when it is an object, `{}` otherwise. */
  function ParseGptDict(text: string, parse: Parser): (r: map<string, Json>)
    ensures ParseGptJson(text, parse).JObj? ==> JObj(r) == ParseGptJson(text, parse)
    ensures !ParseGptJson(text, parse).JObj? ==> r == map[]
  {
    match ParseGptJson(text, parse)
    case JObj(m) => m
    case _ => map[]
  }

  /** The digest built from the documented dict: it never raises, agrees
      with `extract_structured_digest` wherever that succeeds, and gives the
      all-default digest where that raises. */
  function ExtractDigestTotal(text: string, parse: Parser): (r: map<string, Json>)
    ensures r.Keys == {"summary", "highlights", "insights", "action_items", "questions"}
    ensures ExtractDigest(text, parse).Ok? ==> r == ExtractDigest(text, parse).value
    ensures ExtractDigest(text, parse).Err? ==> forall k :: k in r ==>
      r[k] == if k == "summary" then JStr("") else JArr([])
  {
    WithDefaults(ParseGptDict(text, parse), DigestDefaults)
  }

  // ---------------------------------------------------------------------
  // extract_flashcards
  // ---------------------------------------------------------------------

  /** `isinstance(card, dict) and "front" in card and "back" in card` */
  predicate IsCard(j: Json) {
    j.JObj? && "front" in j.fields && "back" in j.fields
  }

  /** `{"front": str(card["front"]), "back": str(card["back"])}` */
  function ToCard(j: Json, render: Json -> string): Records.Flashcard
    requires IsCard(j)
  {
    Records.Flashcard(PyStr(j.fields["front"], render), PyStr(j.fields["back"], render))
  }

  /** The cards kept from a list, in list order. */
  function ValidCards(items: seq<Json>, render: Json -> string): (r: seq<Records.Flashcard>)
    ensures |r| <= |items|
    ensures |r| == |items| <==> forall i :: 0 <= i < |items| ==> IsCard(items[i])
  {
    if |items| == 0 then []
    else
      var last := items[|items| - 1];
      ValidCards(items[..|items| - 1], render) + (if IsCard(last) then [ToCard(last, render)] else [])
  }

  /** The positions of the kept elements, ascending. */
  function KeptIndices(items: seq<Json>): (r: seq<nat>)
    ensures forall k :: 0 <= k < |r| ==> r[k] < |items| && IsCard(items[r[k]])
    ensures forall k, l :: 0 <= k < l < |r| ==> r[k] < r[l]
    ensures forall i :: 0 <= i < |items| && IsCard(items[i]) ==> i in r
  {
    if |items| == 0 then []
    else
      var n := |items| - 1;
      var prefix := KeptIndices(items[..n]);
      assert forall i :: 0 <= i < n ==> items[..n][i] == items[i];
      prefix + (if IsCard(items[n]) then [n] else [])
  }

  /** The k-th card is the element at the k-th kept position, coerced. */
  ghost predicate Corresponds(cards: seq<Records.Flashcard>, kept: seq<nat>, items: seq<Json>, render: Json -> string) {
    && |cards| == |kept|
    && forall k :: 0 <= k < |kept| ==>
         kept[k] < |items| && IsCard(items[kept[k]]) && cards[k] == ToCard(items[kept[k]], render)
  }

  /** Extending the list by one element extends the correspondence. */
  lemma CorrespondsSnoc(items: seq<Json>, render: Json -> string, cards: seq<Records.Flashcard>, kept: seq<nat>)
    requires |items| > 0
    requires Corresponds(cards, kept, items[..|items| - 1], render)
    ensures var last := items[|items| - 1];
      Corresponds(
        cards + (if IsCard(last) then [ToCard(last, render)] else []),
        kept + (if IsCard(last) then [|items| - 1] else []),
        items, render)
  {
    var n := |items| - 1;
    assert forall i :: 0 <= i < n ==> items[..n][i] == items[i];
  }

  /** The kept cards are an order-preserving subsequence of the list: the
      k-th card comes from the k-th valid element. */
  lemma {:induction false} ValidCardsFromKept(items: seq<Json>, render: Json -> string)
    ensures Corresponds(ValidCards(items, render), KeptIndices(items), items, render)
  {
    if |items| > 0 {
      var n := |items| - 1;
      ValidCardsFromKept(items[..n], render);
      CorrespondsSnoc(items, render, ValidCards(items[..n], render), KeptIndices(items[..n]));
    }
  }

  /** What `for card in value` yields for cards: a list gives its valid
      elements; a string iterates characters and a dict iterates keys, and
      neither is a dict, so no cards; anything else cannot be iterated. */
  function CardsOf(value: Json, render: Json -> string): (r: Result<seq<Records.Flashcard>, PyError>)
    ensures r.Err? <==> value.JNull? || value.JBool? || value.JNum?
    ensures r.Err? ==> r.error == TypeError
    ensures value.JArr? ==> r == Ok(ValidCards(value.items, render))
    ensures value.JStr? || value.JObj? ==> r == Ok([])
  {
    match value
    case JArr(items) => Ok(ValidCards(items, render))
    case JStr(_) => Ok([])
    case JObj(_) => Ok([])
    case _ => Err(TypeError)
  }

  /** The validation loop of `extract_flashcards`, over a list. */
  method CollectCards(items: seq<Json>, render: Json -> string) returns (cards: seq<Records.Flashcard>)
    ensures cards == ValidCards(items, render)
  {
    cards := [];
    var i := 0;
    while i < |items|
      invariant 0 <= i <= |items|
      invariant cards == ValidCards(items[..i], render)
    {
      var card := items[i];
      assert items[..i + 1][..i] == items[..i];
      if card.JObj? && "front" in card.fields && "back" in card.fields {
        cards := cards + [Records.Flashcard(PyStr(card.fields["front"], render), PyStr(card.fields["back"], render))];
      }
      i := i + 1;
    }
    assert items[..i] == items;
  }

  /** `extract_flashcards`: the valid cards under the `flashcards` key, none
      when the key is missing. */
  function ExtractFlashcards(text: string, parse: Parser, render: Json -> string)
    : (r: Result<seq<Records.Flashcard>, PyError>)
    ensures !ParseGptJson(text, parse).JObj? ==> r == Err(AttributeError)
    ensures ParseGptJson(text, parse).JObj? && "flashcards" !in ParseGptJson(text, parse).fields ==> r == Ok([])
    ensures ParseGptJson(text, parse).JObj? && "flashcards" in ParseGptJson(text, parse).fields ==>
      r == CardsOf(ParseGptJson(text, parse).fields["flashcards"], render)
  {
    match ParseGptJson(text, parse)
    case JObj(m) => CardsOf(Get(m, "flashcards", JArr([])), render)
    case _ => Err(AttributeError)
  }

  /** A card without `back` is dropped while a complete one is kept. */
  lemma DropsPartialCard(text: string, parse: Parser, render: Json -> string)
    requires |text| > 0
    requires parse(text) == Some(JObj(map["flashcards" := JArr([
      JObj(map["front" := JStr("Q"), "back" := JStr("A")]),
      JObj(map["front" := JStr("onlyfront")])])]))
    ensures ExtractFlashcards(text, parse, render) == Ok([Records.Flashcard("Q", "A")])
  {
    var items := [
      JObj(map["front" := JStr("Q"), "back" := JStr("A")]),
      JObj(map["front" := JStr("onlyfront")])];
    assert ParseGptJson(text, parse).fields["flashcards"] == JArr(items);
    assert items[..1] == [items[0]];
    assert items[..1][..0] == [];
    assert IsCard(items[0]) && !IsCard(items[1]);
    assert ValidCards(items[..1][..0], render) == [];
    assert ValidCards(items[..1], render) == [Records.Flashcard("Q", "A")];
    assert ValidCards(items, render) == [Records.Flashcard("Q", "A")];
  }
}
