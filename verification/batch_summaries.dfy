/** Reading the numbered reply of a batch summarization request
    (`parse_batch_summaries`) and handing its items back to the articles. */
module BatchSummaries {
  import opened Wrappers
  import opened Seqs
  import opened PyStr
  import opened Articles

  /** The summary of an article the reply has no item for. */
  const NotAvailable: string := "[Summary not available]"

  /** A stripped line that opens a new item: its first character is a digit. */
  predicate OpensItem(line: string)
  {
    |line| > 0 && IsDigit(line[0])
  }

  /** The text a numbered line starts its item with: what follows its first `.`,
      stripped, or the whole line when it has no `.`. */
  function ItemHead(line: string): (head: string)
    ensures Stripped(line) ==> Stripped(head)
    ensures |head| <= |line|
    ensures '.' !in line ==> head == line
    ensures '.' in line ==> exists i :: 0 <= i < |line| && line[i] == '.' && '.' !in line[..i] && head == Strip(line[i + 1..])
  {
    if '.' in line then
      var rest := AfterFirst(line, '.');
      var i := |line| - |rest| - 1;
      assert line[i] == '.' && line[..i] == line[..|line| - |rest| - 1] && line[i + 1..] == rest;
      Strip(rest)
    else line
  }

  /** `line.strip()` for every line. */
  function StripEach(lines: seq<string>): (r: seq<string>)
    ensures |r| == |lines|
    ensures forall i :: 0 <= i < |lines| ==> r[i] == Strip(lines[i]) && Stripped(r[i])
  {
    seq(|lines|, i requires 0 <= i < |lines| => Strip(lines[i]))
  }

  /** The lines of a reply as the parser sees them: the stripped reply split at
      newlines, each line stripped. */
  function StrippedLines(text: string): seq<string>
  {
    StripEach(Split(Strip(text), '\n'))
  }

  /** What a (stripped) continuation line adds to the open item: a space and
      the line, or nothing when the line is blank. */
  function Piece(line: string): string
  {
    if line == "" then "" else " " + line
  }

  function Continuation(lines: seq<string>): string
  {
    if |lines| == 0 then "" else Piece(lines[0]) + Continuation(lines[1..])
  }

  /** The open item `cur` once `lines` have been appended to it; an empty item
      takes no continuation. */
  function Extend(cur: string, lines: seq<string>): string
  {
    if cur == "" then "" else cur + Continuation(lines)
  }

  /** The position of the first line that opens an item, or `|lines|` when none does. */
  function NextOpening(lines: seq<string>): (k: nat)
    ensures k <= |lines|
  {
    if |lines| == 0 then 0
    else if OpensItem(lines[0]) then 0
    else 1 + NextOpening(lines[1..])
  }

  function NonEmpty(item: string): seq<string>
  {
    if item == "" then [] else [item]
  }

  /** Block reading of a reply: `cur` is the item open before `lines`; it takes
      every line up to the next numbered one, and each numbered line then opens a
      block of its own. */
  function ItemsAfter(lines: seq<string>, cur: string): seq<string>
    decreases |lines|, 1
  {
    var k := NextOpening(lines);
    NonEmpty(Extend(cur, lines[..k])) + ItemsFrom(lines[k..])
  }

  /** The items of `lines`, whose first line (if any) is a numbered one. */
  function ItemsFrom(lines: seq<string>): seq<string>
    decreases |lines|, 0
  {
    if |lines| == 0 then [] else ItemsAfter(lines[1..], ItemHead(lines[0]))
  }

  /** The items of a whole reply: nothing is open before the first line. */
  function ReplyItems(lines: seq<string>): seq<string>
  {
    ItemsAfter(lines, "")
  }

  lemma ItemsAfterEnd(cur: string)
    ensures ItemsAfter([], cur) == NonEmpty(cur)
  {
    var none: seq<string> := [];
    assert NextOpening(none) == 0;
    assert none[..0] == none && none[0..] == none;
    assert Extend(cur, none) == cur;
  }

  lemma {:induction false} ItemsAfterOpening(line: string, rest: seq<string>, cur: string)
    requires OpensItem(line)
    ensures ItemsAfter([line] + rest, cur) == NonEmpty(cur) + ItemsAfter(rest, ItemHead(line))
  {
    var lines := [line] + rest;
    assert lines[0] == line && lines[1..] == rest;
    assert NextOpening(lines) == 0;
    assert Extend(cur, lines[..0]) == cur by {
      assert lines[..0] == [];
    }
    assert lines[0..] == lines;
    assert ItemsFrom(lines) == ItemsAfter(rest, ItemHead(line));
  }

  lemma ExtendByLines(cur: string, line: string, more: seq<string>)
    ensures Extend(cur, [line] + more) == Extend(Extend(cur, [line]), more)
  {
    var none: seq<string> := [];
    assert ([line] + more)[1..] == more;
    assert [line][1..] == none;
    assert Continuation([line]) == Piece(line) + Continuation(none);
    if cur != "" {
      assert Extend(cur, [line]) == cur + Piece(line);
      ConcatAssoc(cur, Piece(line), Continuation(more));
    }
  }

  lemma {:induction false} ItemsAfterContinuation(line: string, rest: seq<string>, cur: string)
    requires !OpensItem(line)
    ensures ItemsAfter([line] + rest, cur) == ItemsAfter(rest, Extend(cur, [line]))
  {
    var lines := [line] + rest;
    var k := NextOpening(rest);
    assert lines[0] == line && lines[1..] == rest;
    assert NextOpening(lines) == 1 + k;
    assert lines[..1 + k] == [line] + rest[..k];
    assert lines[1 + k..] == rest[k..];
    ExtendByLines(cur, line, rest[..k]);
  }

  lemma ExtendByOneLine(cur: string, line: string)
    ensures Extend(cur, [line]) == if cur != "" && line != "" then cur + " " + line else cur
  {
    var none: seq<string> := [];
    assert [line][1..] == none;
    assert Continuation(none) == "";
    assert Continuation([line]) == Piece(line) + Continuation(none);
    if cur != "" && line != "" {
      assert Extend(cur, [line]) == cur + (" " + line);
    }
  }

  /** `parse_batch_summaries(text, expected_count)`. */
  method ParseBatchSummaries(text: string, expectedCount: nat) returns (summaries: seq<string>)
    ensures |summaries| <= expectedCount
    ensures forall i :: 0 <= i < |summaries| ==> summaries[i] != "" && Stripped(summaries[i])
    ensures summaries == Take(ReplyItems(StrippedLines(text)), expectedCount)
  {
    var lines := Split(Strip(text), '\n');
    var found := ParseLines(lines);
    ReplyItemsWellFormed(lines);
    summaries := Take(found, expectedCount);
    TakeIndex(found, expectedCount);
  }

  /** Every item the parser returns is non-empty and stripped. */
  lemma ReplyItemsWellFormed(lines: seq<string>)
    ensures forall j :: 0 <= j < |ReplyItems(StripEach(lines))| ==>
              ReplyItems(StripEach(lines))[j] != "" && Stripped(ReplyItems(StripEach(lines))[j])
  {
    assert Stripped("");
    ItemsAfterWellFormed(StripEach(lines), "");
  }

  lemma {:induction false} NextOpeningSkips(pre: seq<string>, lines: seq<string>)
    requires forall i :: 0 <= i < |pre| ==> !OpensItem(pre[i])
    ensures NextOpening(pre + lines) == |pre| + NextOpening(lines)
    decreases |pre|
  {
    if |pre| > 0 {
      assert (pre + lines)[0] == pre[0];
      assert (pre + lines)[1..] == pre[1..] + lines;
      NextOpeningSkips(pre[1..], lines);
    } else {
      assert pre + lines == lines;
    }
  }

  /** Lines before the first numbered line are discarded. */
  lemma PreambleIsDropped(preamble: seq<string>, lines: seq<string>)
    requires forall i :: 0 <= i < |preamble| ==> !OpensItem(preamble[i])
    ensures ReplyItems(preamble + lines) == ReplyItems(lines)
  {
    var k := NextOpening(lines);
    NextOpeningSkips(preamble, lines);
    assert (preamble + lines)[|preamble| + k..] == lines[k..];
    assert NonEmpty(Extend("", lines[..k])) == [];
  }

  /** A numbered line opens one item: its head, followed by every later line up
      to the next numbered one, each joined with a single space (blank lines add
      nothing). The item is dropped when it is empty. */
  lemma NumberedLineOpensItem(line: string, continuation: seq<string>, rest: seq<string>)
    requires OpensItem(line)
    requires forall i :: 0 <= i < |continuation| ==> !OpensItem(continuation[i])
    requires rest == [] || OpensItem(rest[0])
    ensures ItemsFrom([line] + continuation + rest)
            == NonEmpty(Extend(ItemHead(line), continuation)) + ItemsFrom(rest)
  {
    var lines := [line] + continuation + rest;
    var after := continuation + rest;
    assert lines[0] == line && lines[1..] == after;
    NextOpeningSkips(continuation, rest);
    assert NextOpening(rest) == 0;
    assert after[..|continuation|] == continuation;
    assert after[|continuation|..] == rest;
  }

  /** A continuation is empty or ends with a non-blank character. */
  lemma {:induction false} ContinuationEnd(lines: seq<string>)
    requires forall i :: 0 <= i < |lines| ==> Stripped(lines[i])
    ensures var c := Continuation(lines); c == "" || !IsSpace(c[|c| - 1])
  {
    if |lines| > 0 {
      ContinuationEnd(lines[1..]);
      var rest := Continuation(lines[1..]);
      var p := Piece(lines[0]);
      var c := p + rest;
      if rest != "" {
        assert c[|c| - 1] == rest[|rest| - 1];
      } else if p != "" {
        assert c == p;
        assert c[|c| - 1] == lines[0][|lines[0]| - 1];
      }
    }
  }

  lemma ExtendIsStripped(cur: string, lines: seq<string>)
    requires Stripped(cur)
    requires forall i :: 0 <= i < |lines| ==> Stripped(lines[i])
    ensures Stripped(Extend(cur, lines))
  {
    if cur != "" {
      ContinuationEnd(lines);
      var c := Continuation(lines);
      var e := cur + c;
      assert e[0] == cur[0];
      if c != "" {
        assert e[|e| - 1] == c[|c| - 1];
      } else {
        assert e == cur;
      }
    }
  }

  /** Every item of the block reading is non-empty and has no surrounding whitespace. */
  lemma {:induction false} ItemsAfterWellFormed(lines: seq<string>, cur: string)
    requires Stripped(cur)
    requires forall i :: 0 <= i < |lines| ==> Stripped(lines[i])
    ensures forall j :: 0 <= j < |ItemsAfter(lines, cur)| ==>
              ItemsAfter(lines, cur)[j] != "" && Stripped(ItemsAfter(lines, cur)[j])
    decreases |lines|, 1
  {
    var k := NextOpening(lines);
    ExtendIsStripped(cur, lines[..k]);
    ItemsFromWellFormed(lines[k..]);
  }

  lemma {:induction false} ItemsFromWellFormed(lines: seq<string>)
    requires forall i :: 0 <= i < |lines| ==> Stripped(lines[i])
    ensures forall j :: 0 <= j < |ItemsFrom(lines)| ==> ItemsFrom(lines)[j] != "" && Stripped(ItemsFrom(lines)[j])
    decreases |lines|, 0
  {
    if |lines| > 0 {
      ItemsAfterWellFormed(lines[1..], ItemHead(lines[0]));
    }
  }

  /** One turn of the loop of `parse_batch_summaries`: the stripped `line` either
      closes the open item and opens the next, or is appended to the open item. */
  method ParseStep(found: seq<string>, current: string, line: string, ghost rest: seq<string>)
    returns (found': seq<string>, current': string)
    requires Stripped(current) && Stripped(line)
    ensures Stripped(current')
    ensures found' + ItemsAfter(rest, current') == found + ItemsAfter([line] + rest, current)
  {
    found', current' := found, current;
    if line != "" && IsDigit(line[0]) {
      ItemsAfterOpening(line, rest, current);
      if current != "" {
        found' := found + [Strip(current)];
      }
      assert found' == found + NonEmpty(current);
      current' := ItemHead(line);
      var tail := ItemsAfter(rest, current');
      assert ItemsAfter([line] + rest, current) == NonEmpty(current) + tail;
      ConcatAssoc(found, NonEmpty(current), tail);
    } else {
      ItemsAfterContinuation(line, rest, current);
      ExtendByOneLine(current, line);
      if current != "" && line != "" {
        SpaceJoinIsStripped(current, line);
        current' := current + " " + line;
      }
      assert current' == Extend(current, [line]);
    }
  }

  lemma SpaceJoinIsStripped(a: string, b: string)
    requires a != "" && b != "" && Stripped(a) && Stripped(b)
    ensures Stripped(a + " " + b)
  {
    var j := a + " " + b;
    assert j[0] == a[0];
    assert j[|j| - 1] == b[|b| - 1];
  }

  /** The loop of `parse_batch_summaries` over the lines of the reply. */
  method ParseLines(lines: seq<string>) returns (found: seq<string>)
    ensures found == ReplyItems(StripEach(lines))
  {
    ghost var stripped := StripEach(lines);
    found := [];
    var current := "";
    var i := 0;
    while i < |lines|
      invariant 0 <= i <= |lines|
      invariant Stripped(current)
      invariant found + ItemsAfter(stripped[i..], current) == ReplyItems(stripped)
    {
      var line := Strip(lines[i]);
      SuffixUncons(stripped, i);
      found, current := ParseStep(found, current, line, stripped[i + 1..]);
      i := i + 1;
    }
    assert stripped[i..] == [];
    ItemsAfterEnd(current);
    if current != "" {
      found := found + [Strip(current)];
    }
  }

  /** The summary the `i`-th article of a batch receives from the parsed items. */
  function SummaryAt(summaries: seq<string>, i: nat): string
  {
    if i < |summaries| then summaries[i] else NotAvailable
  }

  /** Cutting the items to the batch size changes no article's summary. */
  lemma SummaryAtTake(items: seq<string>, n: nat)
    ensures forall i: nat :: i < n ==> SummaryAt(Take(items, n), i) == SummaryAt(items, i)
  {
  }

  /** Every article receives a non-empty summary when every item is non-empty. */
  lemma SummaryAtIsNonEmpty(summaries: seq<string>)
    requires forall j :: 0 <= j < |summaries| ==> summaries[j] != ""
    ensures forall i: nat :: SummaryAt(summaries, i) != ""
  {
    assert NotAvailable != "";
  }

  /** The loop of `summarize_articles_batch` that hands the parsed summaries back:
      article `i` gets summary `i`, or the placeholder when the reply was short. */
  method AssignSummaries(articles: seq<Article>, summaries: seq<string>) returns (updated: seq<Article>)
    ensures |updated| == |articles|
    ensures forall i :: 0 <= i < |articles| ==>
              updated[i] == articles[i].(summary := Some(SummaryAt(summaries, i)))
  {
    updated := [];
    var i := 0;
    while i < |articles|
      invariant 0 <= i <= |articles|
      invariant |updated| == i
      invariant forall j :: 0 <= j < i ==>
                  updated[j] == articles[j].(summary := Some(SummaryAt(summaries, j)))
    {
      var article := articles[i];
      if i < |summaries| {
        article := article.(summary := Some(summaries[i]));
      } else {
        article := article.(summary := Some(NotAvailable));
      }
      updated := updated + [article];
      i := i + 1;
    }
  }

  /** Parses a non-empty reply and hands its items to the articles in order. */
  method ApplyReply(articles: seq<Article>, reply: string) returns (updated: seq<Article>)
    ensures |updated| == |articles|
    ensures forall i :: 0 <= i < |articles| ==>
              updated[i] == articles[i].(summary := Some(SummaryAt(ReplyItems(StrippedLines(reply)), i)))
    ensures forall i :: 0 <= i < |updated| ==> Truthy(updated[i].summary)
  {
    var summaries := ParseBatchSummaries(reply, |articles|);
    SummaryAtTake(ReplyItems(StrippedLines(reply)), |articles|);
    updated := AssignSummaries(articles, summaries);
    SummaryAtIsNonEmpty(summaries);
  }

  /** The batch path of `summarize_articles_batch` for a reply `reply`. `None`
      stands for the empty-reply error, after which the source falls back to
      one request per article. */
  method SummarizeBatch(articles: seq<Article>, reply: string) returns (r: Option<seq<Article>>)
    ensures |articles| == 0 ==> r == Some(articles)
    ensures |articles| > 0 && reply == "" ==> r == None
    ensures |articles| > 0 && reply != "" ==>
              && r.Some? && |r.value| == |articles|
              && forall i :: 0 <= i < |articles| ==>
                   r.value[i] == articles[i].(summary := Some(SummaryAt(ReplyItems(StrippedLines(reply)), i)))
    ensures r.Some? ==> forall i :: 0 <= i < |r.value| ==> Truthy(r.value[i].summary)
  {
    if |articles| == 0 {
      return Some(articles);
    }
    if reply == "" {
      return None;
    }
    var updated := ApplyReply(articles, reply);
    return Some(updated);
  }
}
