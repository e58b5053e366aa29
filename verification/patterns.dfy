/** The two regular-expression searches the JSON recovery relies on,
    written out as the searches Python's `re.search` performs for them
    (with `re.DOTALL`, so `.` matches every character). */
module Patterns {
  import opened Wrappers
  import Text

  /** Text that starts with `{` and ends with `}`: the only shape either
      search can hand to the JSON parser. */
  predicate IsBraced(s: string) {
    |s| >= 2 && s[0] == '{' && s[|s| - 1] == '}'
  }

  /** `\s` matches every character of `t[lo..hi]`. */
  predicate Blanks(t: string, lo: nat, hi: nat) {
    forall m :: lo <= m < hi && m < |t| ==> Text.IsPySpace(t[m])
  }

  /** The first index at or after `i` that `\s` does not match; since the
      character after a maximal `\s*` run is never blank, this greedy run is
      the only one that can succeed in either pattern. */
  function SkipSpace(t: string, i: nat): (k: nat)
    requires i <= |t|
    ensures i <= k <= |t|
    ensures Blanks(t, i, k)
    ensures k == |t| || !Text.IsPySpace(t[k])
    decreases |t| - i
  {
    if i < |t| && Text.IsPySpace(t[i]) then SkipSpace(t, i + 1) else i
  }

  /** Three backticks start at `i`. */
  predicate FenceAt(t: string, i: nat) {
    i + 3 <= |t| && t[i] == '`' && t[i + 1] == '`' && t[i + 2] == '`'
  }

  /** The optional `json` tag starts at `i`. */
  predicate JsonTagAt(t: string, i: nat) {
    i + 4 <= |t| && t[i] == 'j' && t[i + 1] == 's' && t[i + 2] == 'o' && t[i + 3] == 'n'
  }

  /** `\}\s*```` matches at `e`: a closing brace, blanks, then a fence. */
  predicate ClosesAt(t: string, e: nat) {
    e < |t| && t[e] == '}' && FenceAt(t, SkipSpace(t, e + 1))
  }

  /** No position in `[lo, hi)` closes the lazy body. */
  predicate NoCloseIn(t: string, lo: nat, hi: nat) {
    forall k :: lo <= k < hi ==> !ClosesAt(t, k)
  }

  /** The lazy `.*?` before `\}\s*````: the first closing position at or
      after `from`. */
  function LazyClose(t: string, from: nat): (e: Option<nat>)
    requires from <= |t|
    ensures e.Some? ==> from <= e.value < |t| && ClosesAt(t, e.value)
    ensures e.Some? ==> NoCloseIn(t, from, e.value)
    ensures e.None? ==> NoCloseIn(t, from, |t|)
    decreases |t| - from
  {
    if from == |t| then None
    else if ClosesAt(t, from) then Some(from)
    else LazyClose(t, from + 1)
  }

  /** Where the `{` of group 1 must sit for a match starting at `p`: after
      the fence, an optional `json` tag and blanks.  When the tag is present
      but no match follows it, dropping the optional tag cannot help (the
      next character is then `j`, neither blank nor `{`). */
  function OpenAt(t: string, p: nat): (b: Option<nat>)
    requires p <= |t|
    ensures b.Some? ==> p + 3 <= b.value < |t| && t[b.value] == '{' && FenceAt(t, p)
    ensures b.Some? ==> Blanks(t, p + 3, b.value) || (JsonTagAt(t, p + 3) && Blanks(t, p + 7, b.value))
  {
    if !FenceAt(t, p) then None
    else
      var q := if JsonTagAt(t, p + 3) then p + 7 else p + 3;
      var b := SkipSpace(t, q);
      if b < |t| && t[b] == '{' then Some(b) else None
  }

  /** Both alternatives of `(?:json)?` open a match: a fence followed by
      blanks and `{`, and a fence followed by `json`, blanks and `{`. */
  lemma OpenAtComplete(t: string, p: nat)
    requires p <= |t| && FenceAt(t, p)
    ensures (SkipSpace(t, p + 3) < |t| && t[SkipSpace(t, p + 3)] == '{')
            ==> OpenAt(t, p) == Some(SkipSpace(t, p + 3))
    ensures (JsonTagAt(t, p + 3) && SkipSpace(t, p + 7) < |t| && t[SkipSpace(t, p + 7)] == '{')
            ==> OpenAt(t, p) == Some(SkipSpace(t, p + 7))
  {
    if JsonTagAt(t, p + 3) {
      assert SkipSpace(t, p + 3) == p + 3;
    }
  }

  /** The span `[b, e)` of group 1 when ```` ```(?:json)?\s*(\{.*?\})\s*``` ````
      matches starting at `p`. */
  function MatchAt(t: string, p: nat): (g: Option<(nat, nat)>)
    requires p <= |t|
    ensures g.Some? ==> OpenAt(t, p) == Some(g.value.0)
    ensures g.Some? ==> p < g.value.0 < g.value.1 - 1 < |t|
    ensures g.Some? ==> ClosesAt(t, g.value.1 - 1)
    ensures g.Some? ==> NoCloseIn(t, g.value.0 + 1, g.value.1 - 1)
    ensures g.None? ==> OpenAt(t, p).None? || NoCloseIn(t, OpenAt(t, p).value + 1, |t|)
  {
    match OpenAt(t, p)
    case None => None
    case Some(b) =>
      match LazyClose(t, b + 1)
      case None => None
      case Some(e) => Some((b, e + 1))
  }

  /** No start in `[lo, hi)` matches the fence pattern. */
  predicate NoMatchIn(t: string, lo: nat, hi: nat) {
    forall j :: lo <= j < hi && j <= |t| ==> MatchAt(t, j).None?
  }

  /** The outcome of the pattern at every start position `0..|t|`. */
  function Attempts(t: string): (ms: seq<Option<(nat, nat)>>)
    ensures |ms| == |t| + 1
    ensures forall j :: 0 <= j < |ms| ==> ms[j] == MatchAt(t, j)
  {
    seq(|t| + 1, j requires 0 <= j <= |t| => MatchAt(t, j))
  }

  /** The first position at or after `p` whose outcome is a match. */
  function FirstSome<X>(ms: seq<Option<X>>, p: nat): (k: Option<nat>)
    requires p <= |ms|
    ensures k.Some? ==> p <= k.value < |ms| && ms[k.value].Some?
    ensures k.Some? ==> forall j :: p <= j < k.value ==> ms[j].None?
    ensures k.None? ==> forall j :: p <= j < |ms| ==> ms[j].None?
    decreases |ms| - p
  {
    if p == |ms| then None
    else if ms[p].Some? then Some(p)
    else FirstSome(ms, p + 1)
  }

  /** Positions without a match are skipped: the search resumes at `k`. */
  lemma {:induction false} FirstSomeSkips<X>(ms: seq<Option<X>>, p: nat, k: nat)
    requires p <= k <= |ms|
    requires forall j :: p <= j < k ==> ms[j].None?
    ensures FirstSome(ms, p) == FirstSome(ms, k)
    decreases k - p
  {
    if p < k {
      FirstSomeSkips(ms, p + 1, k);
    }
  }

  /** `re.search`: the leftmost start position at or after `p` where the
      fence pattern matches. */
  function FirstMatch(t: string, p: nat): (k: Option<nat>)
    requires p <= |t|
    ensures k.Some? ==> p <= k.value <= |t| && MatchAt(t, k.value).Some?
    ensures k.Some? ==> NoMatchIn(t, p, k.value)
    ensures k.None? ==> NoMatchIn(t, p, |t| + 1)
  {
    FirstSome(Attempts(t), p)
  }

  /** Starts that do not match are skipped: the search resumes at `k`. */
  lemma FirstMatchSkips(t: string, p: nat, k: nat)
    requires p <= k <= |t|
    requires NoMatchIn(t, p, k)
    ensures FirstMatch(t, p) == FirstMatch(t, k)
  {
    var ms := Attempts(t);
    assert forall j :: p <= j < k ==> ms[j].None?;
    FirstSomeSkips(ms, p, k);
  }

  /** `group(1)` of the fenced-block search, if any. */
  function FencedBody(t: string): (r: Option<string>)
    ensures r.Some? ==> IsBraced(r.value)
  {
    match FirstMatch(t, 0)
    case None => None
    case Some(p) =>
      var (b, e) := MatchAt(t, p).value;
      Some(t[b..e])
  }

  /** A text without a fence has no fenced body. */
  lemma NoFenceNoBody(t: string)
    requires forall i :: 0 <= i < |t| ==> t[i] != '`'
    ensures FencedBody(t).None?
  {
  }

  /** Braces that close nothing are skipped: the lazy body resumes at `k`. */
  lemma {:induction false} LazyCloseSkips(t: string, from: nat, k: nat)
    requires from <= k <= |t|
    requires NoCloseIn(t, from, k)
    ensures LazyClose(t, from) == LazyClose(t, k)
    decreases k - from
  {
    if from < k {
      assert !ClosesAt(t, from);
      assert LazyClose(t, from) == LazyClose(t, from + 1);
      LazyCloseSkips(t, from + 1, k);
    }
  }

  predicate NoBacktick(s: string) {
    forall i :: 0 <= i < |s| ==> s[i] != '`'
  }

  /** A reply that wraps the object in a `json`-tagged fence although it was
      asked for bare JSON: prose, the tagged fence on its own line, the
      object, and a closing fence on its own line. */
  function TaggedReply(prose: string, obj: string): string {
    prose + "```json\n" + obj + "\n```"
  }

  /** Inside an object without backticks, no `}` but the last is followed by
      blanks and a fence: the blanks stop at a later visible character of the
      object, which is not a backtick. */
  lemma NoEarlyClose(t: string, b: nat, obj: string, k: nat)
    requires b + |obj| <= |t| && t[b..b + |obj|] == obj
    requires IsBraced(obj) && NoBacktick(obj)
    requires b <= k < b + |obj| - 1
    ensures !ClosesAt(t, k)
  {
    var last := b + |obj| - 1;
    assert t[last] == obj[|obj| - 1];
    var m := SkipSpace(t, k + 1);
    assert m <= last;
    assert t[m] == obj[m - b];
  }

  /** The prose before the fence holds no backtick, so no earlier start matches. */
  lemma NoMatchInProse(t: string, prose: string, j: nat)
    requires |prose| <= |t| && t[..|prose|] == prose && NoBacktick(prose)
    requires j < |prose|
    ensures MatchAt(t, j).None?
  {
    assert t[j] == prose[j];
    assert !FenceAt(t, j);
  }

  /** At `p`: a fence, the `json` tag, a line break, `obj`, a line break and
      a closing fence. */
  predicate FencedObjectAt(t: string, p: nat, obj: string) {
    && p + 12 + |obj| <= |t|
    && FenceAt(t, p) && JsonTagAt(t, p + 3) && t[p + 7] == '\n'
    && t[p + 8..p + 8 + |obj|] == obj
    && t[p + 8 + |obj|] == '\n' && FenceAt(t, p + 9 + |obj|)
  }

  /** Where the parts of a tagged reply sit. */
  lemma TaggedReplyLayout(prose: string, obj: string)
    ensures TaggedReply(prose, obj)[..|prose|] == prose
    ensures FencedObjectAt(TaggedReply(prose, obj), |prose|, obj)
  {
    var t := TaggedReply(prose, obj);
    assert t == prose + ("```json\n" + obj + "\n```");
  }

  /** The fence and its `json` tag open the match at the object's `{`. */
  lemma TaggedFenceOpens(t: string, p: nat, obj: string)
    requires IsBraced(obj) && FencedObjectAt(t, p, obj)
    ensures OpenAt(t, p) == Some(p + 8)
  {
    assert t[p + 8] == obj[0];
    assert SkipSpace(t, p + 8) == p + 8;
    assert SkipSpace(t, p + 7) == p + 8;
  }

  /** Text without a backtick before `p` holds no match start. */
  lemma NoMatchBefore(t: string, p: nat)
    requires p <= |t| && NoBacktick(t[..p])
    ensures FirstMatch(t, 0) == FirstMatch(t, p)
  {
    forall j | 0 <= j < p
      ensures MatchAt(t, j).None?
    {
      NoMatchInProse(t, t[..p], j);
    }
    FirstMatchSkips(t, 0, p);
  }

  /** A `}` with a fence on the next line closes the lazy body. */
  lemma FenceOnNextLine(t: string, e: nat)
    requires e + 1 < |t| && t[e] == '}' && t[e + 1] == '\n' && FenceAt(t, e + 2)
    ensures ClosesAt(t, e)
  {
    assert SkipSpace(t, e + 2) == e + 2;
    assert SkipSpace(t, e + 1) == e + 2;
  }

  /** An object without backticks followed by a fence on the next line: the
      lazy body stops at the object's last `}`. */
  lemma {:induction false} ObjectThenFence(t: string, p: nat, obj: string)
    requires IsBraced(obj) && NoBacktick(obj) && FencedObjectAt(t, p, obj)
    ensures LazyClose(t, p + 9) == Some(p + 7 + |obj|)
  {
    var b := p + 8;
    var last := p + 7 + |obj|;
    forall k | b + 1 <= k < last
      ensures !ClosesAt(t, k)
    {
      NoEarlyClose(t, b, obj, k);
    }
    LazyCloseSkips(t, b + 1, last);
    assert t[last] == obj[|obj| - 1];
    FenceOnNextLine(t, last);
  }

  /** An opening and the first close after it make a match. */
  lemma MatchFromParts(t: string, p: nat, b: nat, e: nat)
    requires p <= |t| && OpenAt(t, p) == Some(b) && b + 1 <= |t| && LazyClose(t, b + 1) == Some(e)
    ensures MatchAt(t, p) == Some((b, e + 1))
  {
  }

  /** The search stops at a start that matches. */
  lemma MatchHere(t: string, p: nat)
    requires p <= |t| && MatchAt(t, p).Some?
    ensures FirstMatch(t, p) == Some(p)
  {
    assert Attempts(t)[p].Some?;
  }

  /** The fenced body is group 1 of the first start that matches. */
  lemma FirstMatchBody(t: string, p: nat, b: nat, e: nat)
    requires FirstMatch(t, 0) == Some(p) && p <= |t| && MatchAt(t, p) == Some((b, e))
    ensures FencedBody(t) == Some(t[b..e])
  {
  }

  /** A `json`-tagged fenced object after backtick-free text is the fenced
      body. */
  lemma FencedObjectBody(t: string, p: nat, obj: string)
    requires IsBraced(obj) && NoBacktick(obj) && FencedObjectAt(t, p, obj)
    requires NoBacktick(t[..p])
    ensures FencedBody(t) == Some(obj)
  {
    NoMatchBefore(t, p);
    TaggedFenceOpens(t, p, obj);
    ObjectThenFence(t, p, obj);
    MatchFromParts(t, p, p + 8, p + 7 + |obj|);
    MatchHere(t, p);
    FirstMatchBody(t, p, p + 8, p + 8 + |obj|);
  }

  /** The fence search finds the object of a tagged reply, whatever the prose
      before it, as long as neither holds a backtick. */
  lemma TaggedReplyBody(prose: string, obj: string)
    requires NoBacktick(prose) && NoBacktick(obj) && IsBraced(obj)
    ensures FencedBody(TaggedReply(prose, obj)) == Some(obj)
  {
    TaggedReplyLayout(prose, obj);
    FencedObjectBody(TaggedReply(prose, obj), |prose|, obj);
  }

  /** The reply `Here you go:` followed by a `json`-tagged fence around
      `{"summary": "ok"}` gives that object. */
  lemma TaggedReplyExample()
    ensures FencedBody(TaggedReply("Here you go:\n", "{\"summary\": \"ok\"}")) == Some("{\"summary\": \"ok\"}")
  {
    var obj := "{\"summary\": \"ok\"}";
    assert NoBacktick("Here you go:\n");
    assert NoBacktick(obj);
    TaggedReplyBody("Here you go:\n", obj);
  }

  /** Index of the first `c` in `t`. */
  function FirstIndex(t: string, c: char): (r: Option<nat>)
    ensures r.Some? ==> r.value < |t| && t[r.value] == c
    ensures r.Some? ==> forall k :: 0 <= k < r.value ==> t[k] != c
    ensures r.None? ==> forall k :: 0 <= k < |t| ==> t[k] != c
  {
    if |t| == 0 then None
    else if t[0] == c then Some(0)
    else match FirstIndex(t[1..], c)
      case None => None
      case Some(i) => Some(i + 1)
  }

  /** Index of the last `c` in `t`. */
  function LastIndex(t: string, c: char): (r: Option<nat>)
    ensures r.Some? ==> r.value < |t| && t[r.value] == c
    ensures r.Some? ==> forall k :: r.value < k < |t| ==> t[k] != c
    ensures r.None? ==> forall k :: 0 <= k < |t| ==> t[k] != c
  {
    if |t| == 0 then None
    else if t[|t| - 1] == c then Some(|t| - 1)
    else LastIndex(t[..|t| - 1], c)
  }

  /** The span `[i, j]` that `\{.*\}` matches: `re.search` starts at the
      first `{`, and the greedy `.*` backs off to the last `}`.  A later
      `{` cannot help when no `}` follows the first one. */
  function BraceBounds(t: string): (r: Option<(nat, nat)>)
    ensures r.Some? ==> r.value.0 < r.value.1 < |t|
    ensures r.Some? ==> t[r.value.0] == '{' && t[r.value.1] == '}'
    ensures r.Some? ==> forall k :: 0 <= k < r.value.0 ==> t[k] != '{'
    ensures r.Some? ==> forall k :: r.value.1 < k < |t| ==> t[k] != '}'
  {
    match (FirstIndex(t, '{'), LastIndex(t, '}'))
    case (Some(i), Some(j)) => if i < j then Some((i, j)) else None
    case _ => None
  }

  /** The brace search finds a span exactly when some `{` has a `}` after it. */
  lemma BraceBoundsExist(t: string)
    ensures BraceBounds(t).Some? <==> exists i, j :: 0 <= i < j < |t| && t[i] == '{' && t[j] == '}'
  {
    if exists i, j :: 0 <= i < j < |t| && t[i] == '{' && t[j] == '}' {
      var i, j :| 0 <= i < j < |t| && t[i] == '{' && t[j] == '}';
      assert FirstIndex(t, '{').Some?;
      assert LastIndex(t, '}').Some?;
    }
  }

  /** `group(0)` of the brace search, if any. */
  function BraceSpan(t: string): (r: Option<string>)
    ensures r.Some? ==> IsBraced(r.value)
  {
    match BraceBounds(t)
    case None => None
    case Some((i, j)) => Some(t[i..j + 1])
  }

  /** The brace search on a reply that wraps one object in prose: text
      without `{` before it and text without `}` after it leave exactly the
      object as the span. */
  lemma BraceSpanOf(prose: string, obj: string, tail: string)
    requires IsBraced(obj)
    requires forall i :: 0 <= i < |prose| ==> prose[i] != '{'
    requires forall i :: 0 <= i < |tail| ==> tail[i] != '}'
    ensures BraceSpan(prose + obj + tail) == Some(obj)
  {
    var t := prose + obj + tail;
    var i := |prose|;
    var j := |prose| + |obj| - 1;
    assert t[i] == obj[0] == '{';
    assert t[j] == obj[|obj| - 1] == '}';
    assert forall k :: 0 <= k < i ==> t[k] == prose[k];
    assert forall k :: j < k < |t| ==> t[k] == tail[k - j - 1];
    assert FirstIndex(t, '{') == Some(i);
    assert LastIndex(t, '}') == Some(j);
    assert t[i..j + 1] == obj;
  }
}
