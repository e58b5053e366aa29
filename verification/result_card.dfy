/** The pure parts of the digest result card: which sections are open, the
    text copied to the clipboard and the per-section count badge. */
module ResultCard {
  import Text
  import Records

  // ---------------------------------------------------------------------
  // Expanded sections
  // ---------------------------------------------------------------------

  /** The section keys of the card.  The action-items section is keyed
      `actions`, not `action_items` as in the digest. */
  const SectionKeys: set<string> := {"summary", "highlights", "insights", "actions", "questions"}

  /** The initial `expandedSections` state: every section open. */
  function InitialExpanded(): (m: map<string, bool>)
    ensures m.Keys == SectionKeys
    ensures forall s :: s in m ==> m[s]
  {
    map["summary" := true, "highlights" := true, "insights" := true, "actions" := true, "questions" := true]
  }

  /** `expandedSections[section]` used as a condition: an absent key reads
      as `undefined`, which is falsy. */
  predicate IsExpanded(m: map<string, bool>, section: string) {
    section in m && m[section]
  }

  /** `toggleSection(section)`: `{...prev, [section]: !prev[section]}`. */
  function ToggleSection(m: map<string, bool>, section: string): (r: map<string, bool>)
    ensures r.Keys == m.Keys + {section}
    ensures IsExpanded(r, section) == !IsExpanded(m, section)
    ensures forall s :: s in m && s != section ==> r[s] == m[s]
  {
    m[section := !IsExpanded(m, section)]
  }

  /** Toggling a present section twice restores the state. */
  lemma ToggleSectionTwice(m: map<string, bool>, section: string)
    requires section in m
    ensures ToggleSection(ToggleSection(m, section), section) == m
  {
    var twice := ToggleSection(ToggleSection(m, section), section);
    assert twice.Keys == m.Keys;
    assert forall s :: s in m ==> twice[s] == m[s];
  }

  /** The state after a series of header clicks. */
  function Toggles(m: map<string, bool>, clicks: seq<string>): map<string, bool>
    decreases |clicks|
  {
    if |clicks| == 0 then m else Toggles(ToggleSection(m, clicks[0]), clicks[1..])
  }

  function Occurrences(clicks: seq<string>, section: string): nat
  {
    if |clicks| == 0 then 0
    else (if clicks[0] == section then 1 else 0) + Occurrences(clicks[1..], section)
  }

  /** Clicks on the card's own headers never add or drop a key. */
  lemma {:induction false} TogglesKeepKeys(m: map<string, bool>, clicks: seq<string>)
    requires forall i :: 0 <= i < |clicks| ==> clicks[i] in m
    ensures Toggles(m, clicks).Keys == m.Keys
    decreases |clicks|
  {
    if |clicks| > 0 {
      TogglesKeepKeys(ToggleSection(m, clicks[0]), clicks[1..]);
    }
  }

  /** A section is open after a series of clicks exactly when it was open
      before and was clicked an even number of times, or was closed and was
      clicked an odd number of times. */
  lemma {:induction false} TogglesParity(m: map<string, bool>, clicks: seq<string>, section: string)
    ensures IsExpanded(Toggles(m, clicks), section) == (IsExpanded(m, section) == (Occurrences(clicks, section) % 2 == 0))
    decreases |clicks|
  {
    if |clicks| > 0 {
      TogglesParity(ToggleSection(m, clicks[0]), clicks[1..], section);
    }
  }

  // ---------------------------------------------------------------------
  // Copy to clipboard
  // ---------------------------------------------------------------------

  /** `items.map((x, i) => `${i + 1}. ${x}`).join('\n')` */
  function Numbered(items: seq<string>): string
  {
    Text.Join(Lines(items), "\n")
  }

  function Line(number: nat, item: string): string
  {
    Text.NatToString(number) + ". " + item
  }

  function Lines(items: seq<string>): seq<string>
  {
    seq(|items|, i requires 0 <= i < |items| => Line(i + 1, items[i]))
  }

  /** The first item is numbered 1, and each further item adds one line
      with the next number. */
  lemma NumberedLines(items: seq<string>, x: string)
    ensures Numbered([x]) == "1. " + x
    ensures |items| > 0 ==> Numbered(items + [x]) == Numbered(items) + "\n" + Line(|items| + 1, x)
  {
    assert Text.NatToString(1) == "1";
    assert Lines([x]) == [Line(1, x)];
    if |items| > 0 {
      assert Lines(items + [x]) == Lines(items) + [Line(|items| + 1, x)];
      Text.JoinSnoc(Lines(items), Line(|items| + 1, x), "\n");
    }
  }

  /** The template's content between its leading line break and its final
      line break and indentation: the five sections in display order. */
  function Body(d: Records.DigestData): string
  {
    "Summary: " + d.summary + Lists(d)
  }

  function Lists(d: Records.DigestData): (r: string)
    ensures |r| >= 14 && r[..14] == "\n\nHighlights:\n" && r[2] == 'H'
  {
    "\n\nHighlights:\n" + Numbered(d.highlights)
    + "\n\nInsights:\n" + Numbered(d.insights)
    + "\n\nAction Items:\n" + Numbered(d.actionItems)
    + "\n\nQuestions:\n" + Numbered(d.questions)
  }

  /** The text `copyToClipboard` writes: the template literal, trimmed. */
  function CopyText(d: Records.DigestData): string
  {
    Text.Trim("\n" + Body(d) + "\n    ")
  }

  /** Trimming a framed text that starts with a visible character only
      removes whitespace at its end. */
  lemma TrimFramed(b: string)
    requires |b| >= 1 && !Text.IsJsSpace(b[0])
    ensures Text.Trim("\n" + b + "\n    ") == Text.TrimEnd(b)
  {
    FramedEnd(b);
    StartAfterBreak(Text.TrimEnd(b), b);
  }

  /** The template's closing line break and indentation are blank. */
  lemma ClosingIsBlank()
    ensures forall i :: 0 <= i < |"\n    "| ==> Text.IsJsSpace("\n    "[i])
  {
    var w := "\n    ";
    assert w[0] == '\n' && w[1] == ' ' && w[2] == ' ' && w[3] == ' ' && w[4] == ' ';
  }

  lemma FramedEnd(b: string)
    requires |b| >= 1 && !Text.IsJsSpace(b[0])
    ensures Text.TrimEnd("\n" + b + "\n    ") == "\n" + Text.TrimEnd(b)
  {
    ClosingIsBlank();
    Text.TrimEndIgnoresSpaces("\n" + b, "\n    ");
    Text.TrimEndKeepsPrefix("\n", b);
  }

  lemma StartAfterBreak(e: string, b: string)
    requires |b| >= 1 && !Text.IsJsSpace(b[0]) && e == Text.TrimEnd(b)
    ensures Text.TrimStart("\n" + e) == e
  {
    assert |e| >= 1 && e[0] == b[0];
    var x := "\n" + e;
    assert x[1..] == e;
    assert Text.TrimStart(x) == Text.TrimStart(e);
  }

  /** A visible character after `head` keeps all of `head` through the trim. */
  lemma TrimKeepsHead(head: string, rest: string)
    requires |rest| >= 3 && !Text.IsJsSpace(rest[2])
    ensures |Text.TrimEnd(head + rest)| > |head| + 2
    ensures Text.TrimEnd(head + rest)[..|head|] == head
  {
    var b := head + rest;
    assert b[|head| + 2] == rest[2];
    var e := Text.TrimEnd(b);
    assert e == b[..|e|];
  }

  /** Trimming removes the template's own framing and otherwise only
      whitespace at the very end of the questions list; the copy starts
      with the summary line. */
  lemma CopyTextTrimsOnlyTheEnd(d: Records.DigestData)
    ensures CopyText(d) == Text.TrimEnd(Body(d))
    ensures |CopyText(d)| > 9 + |d.summary| && CopyText(d)[..9 + |d.summary|] == "Summary: " + d.summary
  {
    var head := "Summary: " + d.summary;
    assert head[0] == 'S';
    TrimFramed(Body(d));
    TrimKeepsHead(head, Lists(d));
  }

  /** When the copied text does not end in whitespace it is the body exactly. */
  lemma CopyTextExact(d: Records.DigestData)
    requires !Text.IsJsSpace(Body(d)[|Body(d)| - 1])
    ensures CopyText(d) == Body(d)
  {
    CopyTextTrimsOnlyTheEnd(d);
  }

  // ---------------------------------------------------------------------
  // Count badge
  // ---------------------------------------------------------------------

  /** What a section is handed as `items`. */
  datatype SectionItems = Absent | Prose(text: string) | Entries(list: seq<string>)

  /** A string's `length` in JavaScript: UTF-16 code units, so a character
      outside the Basic Multilingual Plane counts twice. */
  function Utf16Length(s: string): (r: nat)
    ensures |s| <= r <= 2 * |s|
    ensures (forall i :: 0 <= i < |s| ==> (s[i] as int) < 0x10000) ==> r == |s|
  {
    if |s| == 0 then 0
    else Utf16Length(s[..|s| - 1]) + (if (s[|s| - 1] as int) < 0x10000 then 1 else 2)
  }

  /** `items?.length || 0`. */
  function ItemCount(items: SectionItems): (r: nat)
    ensures r == 0 <==> items.Absent? || (items.Prose? && |items.text| == 0) || (items.Entries? && |items.list| == 0)
    ensures items.Entries? ==> r == |items.list|
    ensures items.Prose? ==> r == Utf16Length(items.text) && |items.text| <= r <= 2 * |items.text|
  {
    match items
    case Absent => 0
    case Prose(s) => Utf16Length(s)
    case Entries(xs) => |xs|
  }

  /** The `items` each section of a digest receives; the badge of a list
      section counts its entries and the summary's counts its characters. */
  function ItemsOf(d: Records.DigestData, section: string): (r: SectionItems)
    ensures section in SectionKeys <==> !r.Absent?
    ensures section == "summary" ==> ItemCount(r) == Utf16Length(d.summary)
    ensures section == "highlights" ==> ItemCount(r) == |d.highlights|
    ensures section == "insights" ==> ItemCount(r) == |d.insights|
    ensures section == "actions" ==> ItemCount(r) == |d.actionItems|
    ensures section == "questions" ==> ItemCount(r) == |d.questions|
  {
    match section
    case "summary" => Prose(d.summary)
    case "highlights" => Entries(d.highlights)
    case "insights" => Entries(d.insights)
    case "actions" => Entries(d.actionItems)
    case "questions" => Entries(d.questions)
    case _ => Absent
  }
}
