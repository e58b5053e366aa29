/** The pure parts of the flashcard grid: which cards show their back, the
    Anki CSV export and the plain-text copy. */
module FlashcardGrid {
  import opened Wrappers
  import Text
  import Records

  // ---------------------------------------------------------------------
  // Flip state
  // ---------------------------------------------------------------------

  /** `toggleFlip(index)`: the set with `index`'s membership inverted. */
  function ToggleFlip(flipped: set<nat>, index: nat): (r: set<nat>)
    ensures index in r <==> index !in flipped
    ensures forall j :: j != index ==> (j in r <==> j in flipped)
  {
    if index in flipped then flipped - {index} else flipped + {index}
  }

  /** Flipping the same card twice restores the state. */
  lemma ToggleFlipTwice(flipped: set<nat>, index: nat)
    ensures ToggleFlip(ToggleFlip(flipped, index), index) == flipped
  {
  }

  /** Every index of a grid of `n` cards. */
  function AllIndices(n: nat): (r: set<nat>)
    ensures forall i: nat :: i in r <==> i < n
    ensures |r| == n
  {
    if n == 0 then {}
    else
      var r := AllIndices(n - 1) + {n - 1};
      assert n - 1 !in AllIndices(n - 1);
      r
  }

  /** `flipAll()`: reset when as many cards are flipped as there are cards,
      otherwise flip every card. */
  function FlipAll(flipped: set<nat>, n: nat): (r: set<nat>)
    ensures |flipped| == n ==> r == {}
    ensures |flipped| != n ==> forall i: nat :: i in r <==> i < n
  {
    if |flipped| == n then {} else AllIndices(n)
  }

  /** Flipped indices name rendered cards. */
  predicate InRange(flipped: set<nat>, n: nat) {
    forall i :: i in flipped ==> i < n
  }

  /** Within range, "as many flipped as there are cards" means "every card
      flipped", so the size test in `flipAll` decides what it means to. */
  lemma FullIffAll(flipped: set<nat>, n: nat)
    requires InRange(flipped, n)
    ensures |flipped| == n <==> flipped == AllIndices(n)
  {
    var all := AllIndices(n);
    assert flipped <= all;
    assert |all - flipped| == |all| - |flipped|;
  }

  /** A click on the grid. */
  datatype GridEvent = Flip(index: nat) | FlipAllCards

  function Step(flipped: set<nat>, n: nat, e: GridEvent): set<nat>
  {
    match e
    case Flip(i) => ToggleFlip(flipped, i)
    case FlipAllCards => FlipAll(flipped, n)
  }

  function Run(flipped: set<nat>, n: nat, events: seq<GridEvent>): set<nat>
    decreases |events|
  {
    if |events| == 0 then flipped else Run(Step(flipped, n, events[0]), n, events[1..])
  }

  /** Clicks on rendered cards and on "Flip All" keep the flipped indices
      within the grid. */
  lemma {:induction false} RunStaysInRange(flipped: set<nat>, n: nat, events: seq<GridEvent>)
    requires InRange(flipped, n)
    requires forall k :: 0 <= k < |events| && events[k].Flip? ==> events[k].index < n
    ensures InRange(Run(flipped, n, events), n)
    decreases |events|
  {
    if |events| > 0 {
      var next := Step(flipped, n, events[0]);
      assert InRange(next, n);
      RunStaysInRange(next, n, events[1..]);
    }
  }

  /** Within range, "Flip All" and "Reset All" alternate between no card
      and every card flipped. */
  lemma FlipAllAlternates(flipped: set<nat>, n: nat)
    requires InRange(flipped, n)
    ensures flipped == AllIndices(n) ==> FlipAll(flipped, n) == {}
    ensures flipped != AllIndices(n) ==> FlipAll(flipped, n) == AllIndices(n)
  {
    FullIffAll(flipped, n);
  }

  // ---------------------------------------------------------------------
  // Anki CSV export
  // ---------------------------------------------------------------------

  /** `s.replace(/"/g, '""')`: every quote doubled. */
  function EscapeQuotes(s: string): (r: string)
    ensures |r| >= |s|
  {
    if |s| == 0 then ""
    else (if s[0] == '"' then "\"\"" else [s[0]]) + EscapeQuotes(s[1..])
  }

  /** `"front","back"` and a newline. */
  function CsvRow(card: Records.Flashcard): string
  {
    "\"" + EscapeQuotes(card.front) + "\",\"" + EscapeQuotes(card.back) + "\"\n"
  }

  /** The CSV text `exportToAnki` downloads: one row per card, in order. */
  function ExportCsv(cards: seq<Records.Flashcard>): string
  {
    if |cards| == 0 then "" else CsvRow(cards[0]) + ExportCsv(cards[1..])
  }

  /** Reads the rest of a quoted field, after its opening quote: `""`
      stands for one quote and a lone `"` closes the field (section 2,
      rule 7 of RFC 4180).  Returns the field and what follows the
      closing quote. */
  function ReadQuoted(s: string): (r: Option<(string, string)>)
    ensures r.Some? ==> |r.value.1| < |s|
  {
    if |s| == 0 then None
    else if s[0] == '"' then
      if |s| > 1 && s[1] == '"' then
        match ReadQuoted(s[2..])
        case None => None
        case Some((f, rest)) => Some(("\"" + f, rest))
      else Some(("", s[1..]))
    else
      match ReadQuoted(s[1..])
      case None => None
      case Some((f, rest)) => Some(([s[0]] + f, rest))
  }

  /** A CSV reader for rows of two quoted fields. */
  function ParseCsv(s: string): Option<seq<Records.Flashcard>>
    decreases |s|
  {
    if |s| == 0 then Some([])
    else if s[0] != '"' then None
    else match ReadQuoted(s[1..])
      case None => None
      case Some((front, rest)) =>
        if |rest| < 2 || rest[..2] != ",\"" then None
        else match ReadQuoted(rest[2..])
          case None => None
          case Some((back, tail)) =>
            if |tail| == 0 || tail[0] != '\n' then None
            else match ParseCsv(tail[1..])
              case None => None
              case Some(more) => Some([Records.Flashcard(front, back)] + more)
  }

  /** Un-doubling an escaped field recovers it, whatever follows the
      closing quote other than another quote. */
  lemma {:induction false} ReadEscaped(x: string, rest: string)
    requires |rest| == 0 || rest[0] != '"'
    ensures ReadQuoted(EscapeQuotes(x) + "\"" + rest) == Some((x, rest))
  {
    var s := EscapeQuotes(x) + "\"" + rest;
    if |x| == 0 {
      assert s == "\"" + rest;
      assert s[1..] == rest;
    } else if x[0] == '"' {
      ReadEscaped(x[1..], rest);
      assert s == "\"\"" + (EscapeQuotes(x[1..]) + "\"" + rest);
      assert s[2..] == EscapeQuotes(x[1..]) + "\"" + rest;
      assert "\"" + x[1..] == x;
    } else {
      ReadEscaped(x[1..], rest);
      assert s == [x[0]] + (EscapeQuotes(x[1..]) + "\"" + rest);
      assert s[1..] == EscapeQuotes(x[1..]) + "\"" + rest;
      assert [x[0]] + x[1..] == x;
    }
  }

  /** A row followed by more text, regrouped at the points the reader
      splits it. */
  lemma RowShape(c: Records.Flashcard, tail: string)
    ensures CsvRow(c) + tail ==
      "\"" + (EscapeQuotes(c.front) + "\"" + (",\"" + (EscapeQuotes(c.back) + "\"" + ("\n" + tail))))
  {
  }

  /** One exported row reads back as its card, leaving what follows it. */
  lemma ReadRow(c: Records.Flashcard, tail: string)
    ensures ParseCsv(CsvRow(c) + tail) ==
      match ParseCsv(tail)
      case None => None
      case Some(more) => Some([c] + more)
  {
    var afterBack := "\n" + tail;
    var afterFront := ",\"" + (EscapeQuotes(c.back) + "\"" + afterBack);
    var s := "\"" + (EscapeQuotes(c.front) + "\"" + afterFront);
    RowShape(c, tail);
    assert s[0] == '"' && s[1..] == EscapeQuotes(c.front) + "\"" + afterFront;
    ReadEscaped(c.front, afterFront);
    assert afterFront[..2] == ",\"" && afterFront[2..] == EscapeQuotes(c.back) + "\"" + afterBack;
    ReadEscaped(c.back, afterBack);
    assert afterBack[0] == '\n' && afterBack[1..] == tail;
  }

  /** Reading the export back gives the cards, in order: quotes inside a
      field, commas and line breaks all survive. */
  lemma {:induction false} ExportCsvRoundTrip(cards: seq<Records.Flashcard>)
    ensures ParseCsv(ExportCsv(cards)) == Some(cards)
  {
    if |cards| > 0 {
      ReadRow(cards[0], ExportCsv(cards[1..]));
      ExportCsvRoundTrip(cards[1..]);
      assert [cards[0]] + cards[1..] == cards;
    }
  }

  /** Appending a card appends exactly its row. */
  lemma {:induction false} ExportCsvSnoc(cards: seq<Records.Flashcard>, c: Records.Flashcard)
    ensures ExportCsv(cards + [c]) == ExportCsv(cards) + CsvRow(c)
  {
    if |cards| > 0 {
      assert (cards + [c])[1..] == cards[1..] + [c];
      ExportCsvSnoc(cards[1..], c);
    } else {
      assert [c][1..] == [];
    }
  }

  // ---------------------------------------------------------------------
  // Copy as text
  // ---------------------------------------------------------------------

  /** `${i + 1}. Q: ${front}\n   A: ${back}` for the card at position `i`. */
  function CopyEntry(i: nat, card: Records.Flashcard): string
  {
    Text.NatToString(i + 1) + ". Q: " + card.front + "\n   A: " + card.back
  }

  function CopyEntries(cards: seq<Records.Flashcard>): seq<string>
  {
    seq(|cards|, i requires 0 <= i < |cards| => CopyEntry(i, cards[i]))
  }

  /** The text `copyAllText` puts on the clipboard. */
  function CopyAllText(cards: seq<Records.Flashcard>): string
  {
    Text.Join(CopyEntries(cards), "\n\n")
  }

  /** The copy starts with card 1's question and ends with the last card's
      answer: numbering from 1 and no trailing separator. */
  lemma CopyAllTextShape(cards: seq<Records.Flashcard>)
    ensures |cards| == 0 ==> CopyAllText(cards) == ""
    ensures |cards| > 0 ==> |CopyAllText(cards)| >= 6 && CopyAllText(cards)[..6] == "1. Q: "
    ensures |cards| > 0 ==> (|CopyAllText(cards)| >= |cards[|cards| - 1].back|
      && CopyAllText(cards)[|CopyAllText(cards)| - |cards[|cards| - 1].back|..] == cards[|cards| - 1].back)
  {
    var entries := CopyEntries(cards);
    if |cards| > 0 {
      Text.JoinEndsWithLast(entries, "\n\n");
      FirstPartPrefix(entries, "\n\n");
      var e0 := CopyEntry(0, cards[0]);
      assert Text.NatToString(1) == "1";
      assert e0[..6] == "1. Q: ";
      var last := CopyEntry(|cards| - 1, cards[|cards| - 1]);
      assert last[|last| - |cards[|cards| - 1].back|..] == cards[|cards| - 1].back;
    }
  }

  lemma {:induction false} FirstPartPrefix(parts: seq<string>, sep: string)
    requires |parts| > 0
    ensures |Text.Join(parts, sep)| >= |parts[0]| && Text.Join(parts, sep)[..|parts[0]|] == parts[0]
  {
  }

  /** Adding a card adds a blank line and the next numbered entry. */
  lemma CopyAllTextSnoc(cards: seq<Records.Flashcard>, c: Records.Flashcard)
    requires |cards| > 0
    ensures CopyAllText(cards + [c]) == CopyAllText(cards) + "\n\n" + CopyEntry(|cards|, c)
  {
    assert CopyEntries(cards + [c]) == CopyEntries(cards) + [CopyEntry(|cards|, c)];
    Text.JoinSnoc(CopyEntries(cards), CopyEntry(|cards|, c), "\n\n");
  }
}
