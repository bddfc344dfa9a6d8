/** The web-search tool of lib/ai/tools/search-web.ts: it checks for an API
    key, asks the search service for `query`, and turns the first five
    organic results into one numbered text for the model. The HTTP exchange
    is an input here (`Exchange`): what came back, or that something threw. */
module SearchWeb {
  import opened Results
  import opened Strings

  /** One organic result; a field the service left out is `undefined` and
      reads as that word in the template. */
  datatype OrganicItem = OrganicItem(title: Option<string>, snippet: Option<string>, link: Option<string>)

  /** The decoded response body. `organic` is `None` when the field is absent
      or `null`; an entry is `None` when it is `null`, and reading a field of
      it throws. */
  datatype Body = Body(organic: Option<seq<Option<OrganicItem>>>)

  /** What the request produced: the request itself threw, or a response
      arrived with its `ok` flag and, unless `json()` threw, its body. */
  datatype Exchange = Threw | Responded(ok: bool, body: Option<Body>)

  /** The message the tool hands back to the model. */
  datatype ToolMessage = ToolMessage(role: string, content: string)

  /** The one error the tool lets escape: no API key configured. */
  datatype SearchError = MissingApiKey

  const MAX_RESULTS: nat := 5
  const TOOL_ROLE: string := "tool"
  const NO_RESULTS: string := "검색 결과가 없습니다."
  const SEARCH_FAILED: string := "검색 중 오류가 발생했어요."
  const SOURCE_LABEL: string := "출처: "
  const ENTRY_SEPARATOR: string := "\n\n"

  // ---------------------------------------------------------------------------
  // Formatting
  // ---------------------------------------------------------------------------

  /** The lines of the entry at `index` (counted from 0): the number and
      title, the snippet, and the source link. */
  function EntryLines(index: nat, item: OrganicItem): (r: seq<string>)
    ensures |r| == 3
    ensures StartsWith(r[0], Decimal(index + 1) + ". ")
    ensures StartsWith(r[2], SOURCE_LABEL)
  {
    var head := Decimal(index + 1) + ". ";
    assert (head + ShowUndefined(item.title))[..|head|] == head;
    assert (SOURCE_LABEL + ShowUndefined(item.link))[..|SOURCE_LABEL|] == SOURCE_LABEL;
    [head + ShowUndefined(item.title), ShowUndefined(item.snippet), SOURCE_LABEL + ShowUndefined(item.link)]
  }

  /** The text of one entry, `${index + 1}. ${title}\n${snippet}\n출처: ${link}`. */
  function Entry(index: nat, item: OrganicItem): string {
    Decimal(index + 1) + ". " + ShowUndefined(item.title) + "\n" + ShowUndefined(item.snippet)
      + "\n" + SOURCE_LABEL + ShowUndefined(item.link)
  }

  /** An entry is its three lines joined by line breaks. */
  lemma EntryIsLines(index: nat, item: OrganicItem)
    ensures Entry(index, item) == Join(EntryLines(index, item), "\n")
  {
    var lines := EntryLines(index, item);
    JoinCons(lines[0], lines[1..], "\n");
    JoinCons(lines[1], lines[2..], "\n");
    assert lines[1..] == [lines[1]] + lines[2..];
  }

  /** The entries of `items`, numbered on from `start`. */
  function Numbered(items: seq<OrganicItem>, start: nat): (r: seq<string>)
    ensures |r| == |items|
    ensures forall k :: 0 <= k < |items| ==> r[k] == Entry(start + k, items[k])
  {
    seq(|items|, k requires 0 <= k < |items| => Entry(start + k, items[k]))
  }

  /** The text the tool builds from the results it shows: their entries,
      separated by blank lines. */
  function Format(items: seq<OrganicItem>): string {
    Join(Numbered(items, 0), ENTRY_SEPARATOR)
  }

  /** The results shown: at most the first `MAX_RESULTS`. */
  function Shown<T>(organic: seq<T>): (r: seq<T>)
    ensures |r| <= MAX_RESULTS && |r| <= |organic|
    ensures |organic| <= MAX_RESULTS ==> r == organic
    ensures forall k :: 0 <= k < |r| ==> r[k] == organic[k]
  {
    if |organic| <= MAX_RESULTS then organic else organic[..MAX_RESULTS]
  }

  /** Every entry is present, or reading a field of a `null` one throws. */
  function Present(items: seq<Option<OrganicItem>>): (r: Option<seq<OrganicItem>>)
    ensures r.Some? <==> forall k :: 0 <= k < |items| ==> items[k].Some?
    ensures r.Some? ==> |r.value| == |items| && forall k :: 0 <= k < |items| ==> Some(r.value[k]) == items[k]
    decreases |items|
  {
    if |items| == 0 then Some([])
    else if items[0].None? then None
    else
      match Present(items[1..])
      case None => None
      case Some(rest) => Some([items[0].value] + rest)
  }

  // ---------------------------------------------------------------------------
  // The tool
  // ---------------------------------------------------------------------------

  /** The results a well-formed exchange shows, or `None` when the exchange
      failed somewhere the tool catches: the request threw, the status was
      not ok, the body was not JSON, or a shown entry was `null`. A missing
      `organic` list counts as empty. */
  function ShownResults(exchange: Exchange): (r: Option<seq<OrganicItem>>)
    ensures exchange.Threw? ==> r.None?
    ensures exchange.Responded? && (!exchange.ok || exchange.body.None?) ==> r.None?
    ensures r.Some? ==> |r.value| <= MAX_RESULTS
  {
    match exchange
    case Threw => None
    case Responded(ok, body) =>
      if !ok || body.None? then None
      else Present(Shown(body.value.organic.GetOr([])))
  }

  /** The content of the tool's reply: the formatted results, the fallback
      text when there are none, or the failure text. */
  function Content(exchange: Exchange): (r: string)
    ensures |r| > 0
    ensures ShownResults(exchange).None? <==> r == SEARCH_FAILED
    ensures r == NO_RESULTS <==> ShownResults(exchange) == Some([])
  {
    match ShownResults(exchange)
    case None => SEARCH_FAILED
    case Some(items) =>
      var results := Format(items);
      FormatShape(items);
      FailureTextsDiffer();
      if results == "" then NO_RESULTS else results
  }

  /** `searchWeb`: without an API key (missing or empty) it throws before
      any request; otherwise it always answers as the tool. */
  function Search(apiKey: Option<string>, exchange: Exchange): (r: Result<ToolMessage, SearchError>)
    ensures r.Err? <==> apiKey.None? || apiKey.value == ""
    ensures r.Ok? ==> r.value.role == TOOL_ROLE && r.value.content == Content(exchange)
  {
    if apiKey.None? || apiKey.value == "" then Err(MissingApiKey)
    else Ok(ToolMessage(TOOL_ROLE, Content(exchange)))
  }

  // ---------------------------------------------------------------------------
  // Properties
  // ---------------------------------------------------------------------------

  /** The line structure of the formatted text: each entry's three lines,
      with an empty line between consecutive entries. */
  function Lines(items: seq<OrganicItem>, start: nat): (r: seq<string>)
    ensures |items| > 0 ==> |r| == 4 * |items| - 1
    decreases |items|
  {
    if |items| == 0 then []
    else if |items| == 1 then EntryLines(start, items[0])
    else EntryLines(start, items[0]) + [""] + Lines(items[1..], start + 1)
  }

  /** The formatted text is the lines joined by newlines. */
  lemma {:induction false} FormatIsLines(items: seq<OrganicItem>, start: nat)
    requires |items| >= 1
    ensures Join(Numbered(items, start), ENTRY_SEPARATOR) == Join(Lines(items, start), "\n")
    decreases |items|
  {
    EntryIsLines(start, items[0]);
    if |items| > 1 {
      var rest := items[1..];
      var e := Entry(start, items[0]);
      var lines := EntryLines(start, items[0]);
      var tail := Numbered(rest, start + 1);
      var restLines := Lines(rest, start + 1);
      NumberedCons(items, start);
      JoinCons(e, tail, ENTRY_SEPARATOR);
      FormatIsLines(rest, start + 1);
      assert Join(tail, ENTRY_SEPARATOR) == Join(restLines, "\n");
      assert Lines(items, start) == lines + [""] + restLines;
      BlankLineBetween(lines, restLines);
    }
  }

  lemma NumberedCons(items: seq<OrganicItem>, start: nat)
    requires |items| >= 1
    ensures Numbered(items, start) == [Entry(start, items[0])] + Numbered(items[1..], start + 1)
  {
    var rest := items[1..];
    var a := Numbered(items, start);
    var tail := Numbered(rest, start + 1);
    var b := [Entry(start, items[0])] + tail;
    forall k | 0 <= k < |a| ensures a[k] == b[k] {
      if k > 0 {
        assert rest[k - 1] == items[k] && start + 1 + (k - 1) == start + k;
        assert b[k] == tail[k - 1];
      }
    }
  }

  /** An empty line between two runs of lines is a blank-line separator. */
  lemma BlankLineBetween(a: seq<string>, b: seq<string>)
    requires |a| >= 1 && |b| >= 1
    ensures Join(a + [""] + b, "\n") == Join(a, "\n") + ENTRY_SEPARATOR + Join(b, "\n")
  {
    EmptyPartBetween(a, b, "\n");
    assert ENTRY_SEPARATOR == "\n" + "\n";
  }

  lemma EmptyPartBetween(a: seq<string>, b: seq<string>, sep: string)
    requires |a| >= 1 && |b| >= 1
    ensures Join(a + [""] + b, sep) == Join(a, sep) + (sep + sep) + Join(b, sep)
  {
    assert a + [""] + b == a + ([""] + b);
    JoinAppend(a, [""] + b, sep);
    JoinEmptyHead(b, sep);
    Regroup(Join(a, sep), sep, Join(b, sep));
  }

  /** An empty first part leaves just the separator in front. */
  lemma JoinEmptyHead(b: seq<string>, sep: string)
    requires |b| >= 1
    ensures Join([""] + b, sep) == sep + Join(b, sep)
  {
    JoinCons("", b, sep);
  }

  lemma Regroup(x: string, y: string, z: string)
    ensures x + y + (y + z) == x + (y + y) + z
  {
  }

  /** A field free of line breaks, as shown. */
  predicate OneLine(v: Option<string>) {
    '\n' !in ShowUndefined(v)
  }

  /** When no field holds a line break, splitting the formatted text at line
      breaks gives back every entry's lines. */
  lemma FormatSplitsIntoLines(items: seq<OrganicItem>)
    requires |items| >= 1
    requires forall k :: 0 <= k < |items| ==>
      OneLine(items[k].title) && OneLine(items[k].snippet) && OneLine(items[k].link)
    ensures SplitOn(Format(items), "\n") == Lines(items, 0)
  {
    FormatIsLines(items, 0);
    LinesAreOneLine(items, 0);
    SplitJoin(Lines(items, 0), '\n');
  }

  lemma {:induction false} LinesAreOneLine(items: seq<OrganicItem>, start: nat)
    requires forall k :: 0 <= k < |items| ==>
      OneLine(items[k].title) && OneLine(items[k].snippet) && OneLine(items[k].link)
    ensures forall k :: 0 <= k < |Lines(items, start)| ==> '\n' !in Lines(items, start)[k]
    decreases |items|
  {
    if |items| > 0 {
      var lines := EntryLines(start, items[0]);
      assert '\n' !in Decimal(start + 1) + ". " by {
        var d := Decimal(start + 1);
        assert forall i :: 0 <= i < |d| ==> IsDigit(d[i]);
      }
      assert '\n' !in SOURCE_LABEL;
      assert forall k :: 0 <= k < 3 ==> '\n' !in lines[k];
      if |items| > 1 {
        LinesAreOneLine(items[1..], start + 1);
        var rest := Lines(items[1..], start + 1);
        var all := lines + [""] + rest;
        assert Lines(items, start) == all;
        forall k | 0 <= k < |all| ensures '\n' !in all[k] {
          if k >= 4 {
            assert all[k] == rest[k - 4];
          }
        }
      }
    }
  }

  /** The digits at the front of `s`. */
  function LeadingDigits(s: string): (r: string)
    ensures |r| <= |s| && r == s[..|r|]
    ensures forall i :: 0 <= i < |r| ==> IsDigit(r[i])
    ensures |r| < |s| ==> !IsDigit(s[|r|])
  {
    if |s| > 0 && IsDigit(s[0]) then [s[0]] + LeadingDigits(s[1..]) else []
  }

  /** An entry's leading number reads back as its position counted from 1. */
  lemma EntryNumberReadsBack(index: nat, item: OrganicItem)
    ensures ValueOf(LeadingDigits(Entry(index, item))) == index + 1
  {
    var d := Decimal(index + 1);
    var e := Entry(index, item);
    EntryIsLines(index, item);
    var first := EntryLines(index, item)[0];
    assert e[..|first|] == first by {
      JoinCons(first, EntryLines(index, item)[1..], "\n");
      assert EntryLines(index, item) == [first] + EntryLines(index, item)[1..];
    }
    assert e[..|d|] == d;
    assert e[|d|] == '.';
    LeadingDigitsOf(e, d);
    DecimalRoundTrip(index + 1);
  }

  /** A run of digits followed by a non-digit is exactly the leading digits. */
  lemma {:induction false} LeadingDigitsOf(s: string, d: string)
    requires |d| < |s| && s[..|d|] == d && !IsDigit(s[|d|])
    requires forall i :: 0 <= i < |d| ==> IsDigit(d[i])
    ensures LeadingDigits(s) == d
    decreases |d|
  {
    if |d| > 0 {
      assert s[1..][..|d| - 1] == d[1..];
      LeadingDigitsOf(s[1..], d[1..]);
      assert d == [d[0]] + d[1..];
    }
  }

  /** The formatted text is empty exactly when nothing is shown, and
      otherwise opens with the first entry, numbered 1. */
  lemma FormatShape(items: seq<OrganicItem>)
    ensures Format(items) == "" <==> |items| == 0
    ensures |items| > 0 ==> StartsWith(Format(items), Entry(0, items[0]))
    ensures |items| > 0 ==> StartsWith(Format(items), "1. ")
  {
    if |items| > 0 {
      var e := Entry(0, items[0]);
      EntryIsLines(0, items[0]);
      var lines := EntryLines(0, items[0]);
      JoinStartsWithHead(Numbered(items, 0), ENTRY_SEPARATOR);
      JoinStartsWithHead(lines, "\n");
      StartsWithTrans(Format(items), e, lines[0]);
      assert Decimal(1) + ". " == "1. ";
      StartsWithTrans(Format(items), lines[0], "1. ");
    }
  }

  /** The two fixed texts differ from each other and from any formatted
      result, which opens with a digit. */
  lemma FailureTextsDiffer()
    ensures NO_RESULTS != SEARCH_FAILED
    ensures forall items :: |items| > 0 ==> Format(items) != NO_RESULTS && Format(items) != SEARCH_FAILED
  {
    assert NO_RESULTS[3] != SEARCH_FAILED[3];
    forall items | |items| > 0
      ensures Format(items) != NO_RESULTS && Format(items) != SEARCH_FAILED
    {
      FormatShape(items);
      assert Format(items)[0] == '1';
    }
  }

  /** Results past the fifth never reach the reply. */
  lemma OnlyFirstFiveShown(organic: seq<Option<OrganicItem>>, extra: seq<Option<OrganicItem>>)
    requires |organic| >= MAX_RESULTS
    ensures Content(Responded(true, Some(Body(Some(organic + extra)))))
         == Content(Responded(true, Some(Body(Some(organic)))))
  {
    assert Shown(organic + extra) == Shown(organic);
  }

  /** A `null` entry past the fifth is never read, so it cannot make the
      search fail; one among the first five always does. */
  lemma NullEntryFailsOnlyWhenShown(organic: seq<Option<OrganicItem>>, k: nat)
    requires k < |organic| && organic[k].None?
    ensures Content(Responded(true, Some(Body(Some(organic))))) == SEARCH_FAILED
        <==> exists j :: 0 <= j < |organic| && j < MAX_RESULTS && organic[j].None?
  {
    var shown := Shown(organic);
    if exists j :: 0 <= j < |organic| && j < MAX_RESULTS && organic[j].None? {
      var j :| 0 <= j < |organic| && j < MAX_RESULTS && organic[j].None?;
      assert shown[j].None?;
    }
  }

  /** Results as the service sends them when none is `null`. */
  function Lift(items: seq<OrganicItem>): (r: seq<Option<OrganicItem>>)
    ensures |r| == |items| && forall k :: 0 <= k < |items| ==> r[k] == Some(items[k])
  {
    seq(|items|, k requires 0 <= k < |items| => Some(items[k]))
  }

  /** With a well-formed exchange the reply is the shown results, formatted,
      or the fallback text when the service found nothing. */
  lemma ReplyListsShownResults(organic: seq<OrganicItem>)
    ensures Content(Responded(true, Some(Body(Some(Lift(organic))))))
         == if |organic| == 0 then NO_RESULTS else Format(Shown(organic))
  {
    var shown := Shown(Lift(organic));
    var p := Present(shown);
    assert p.Some?;
    assert p.value == Shown(organic);
    FormatShape(Shown(organic));
  }

  /** A body without an `organic` list is read as an empty one. */
  lemma MissingOrganicIsEmpty()
    ensures Content(Responded(true, Some(Body(None)))) == NO_RESULTS
  {
    assert Present(Shown([])) == Some([]);
  }
}
