/** The system prompt and the document-update prompt (lib/ai/prompts.ts):
    fixed texts glued together according to the selected chat model and the
    kind of artifact being edited. */
module Prompts {
  import opened Results
  import opened Strings
  import opened Schema

  /** The three long fixed prompts. Their text embeds the date at which the
      module was loaded, so the model takes them as given values. */
  datatype PromptConstants = PromptConstants(regular: string, enhancedSearch: string, artifacts: string)

  /** Where and when the request came from. The geolocation fields may be
      `undefined`. */
  datatype RequestHints = RequestHints(
    latitude: Option<string>,
    longitude: Option<string>,
    city: Option<string>,
    country: Option<string>,
    currentTime: string)

  const HINTS_HEADER: string := "요청자의 위치 및 현재 시점 정보:"
  const TIME_LABEL: string := "- 현재 날짜 및 시간: "
  const LATITUDE_LABEL: string := "- 위도: "
  const LONGITUDE_LABEL: string := "- 경도: "
  const CITY_LABEL: string := "- 도시: "
  const COUNTRY_LABEL: string := "- 국가: "

  /** The lines of the request-hints prompt: a blank line, the header, one
      labelled line per hint, and the empty remainder after the final
      newline. */
  function HintLines(h: RequestHints): seq<string> {
    [ "",
      HINTS_HEADER,
      TIME_LABEL + h.currentTime,
      LATITUDE_LABEL + ShowUndefined(h.latitude),
      LONGITUDE_LABEL + ShowUndefined(h.longitude),
      CITY_LABEL + ShowUndefined(h.city),
      COUNTRY_LABEL + ShowUndefined(h.country),
      "" ]
  }

  /** `getRequestPromptFromHints`: the hints, one per line, in the order
      time, latitude, longitude, city, country. */
  function RequestPrompt(h: RequestHints): (r: string)
    ensures r == Join(HintLines(h), "\n")
  {
    // The template literal, grouped line by line from the end.
    var r := "" + "\n" + (HINTS_HEADER
      + "\n" + (TIME_LABEL + h.currentTime
      + "\n" + (LATITUDE_LABEL + ShowUndefined(h.latitude)
      + "\n" + (LONGITUDE_LABEL + ShowUndefined(h.longitude)
      + "\n" + (CITY_LABEL + ShowUndefined(h.city)
      + "\n" + (COUNTRY_LABEL + ShowUndefined(h.country)
      + "\n" + ""))))));
    HintLinesJoin(h);
    r
  }

  lemma HintLinesJoin(h: RequestHints)
    ensures Join(HintLines(h), "\n") ==
      "" + "\n" + (HINTS_HEADER
      + "\n" + (TIME_LABEL + h.currentTime
      + "\n" + (LATITUDE_LABEL + ShowUndefined(h.latitude)
      + "\n" + (LONGITUDE_LABEL + ShowUndefined(h.longitude)
      + "\n" + (CITY_LABEL + ShowUndefined(h.city)
      + "\n" + (COUNTRY_LABEL + ShowUndefined(h.country)
      + "\n" + ""))))))
  {
    var l := HintLines(h);
    var nl := "\n";
    assert l[6..] == [l[6]] + l[7..];
    JoinCons(l[6], l[7..], nl);
    assert l[5..] == [l[5]] + l[6..];
    JoinCons(l[5], l[6..], nl);
    assert l[4..] == [l[4]] + l[5..];
    JoinCons(l[4], l[5..], nl);
    assert l[3..] == [l[3]] + l[4..];
    JoinCons(l[3], l[4..], nl);
    assert l[2..] == [l[2]] + l[3..];
    JoinCons(l[2], l[3..], nl);
    assert l[1..] == [l[1]] + l[2..];
    JoinCons(l[1], l[2..], nl);
    assert l == [l[0]] + l[1..];
    JoinCons(l[0], l[1..], nl);
  }

  /** No hint spills over a line. */
  predicate SingleLineHints(h: RequestHints) {
    && '\n' !in h.currentTime
    && '\n' !in ShowUndefined(h.latitude)
    && '\n' !in ShowUndefined(h.longitude)
    && '\n' !in ShowUndefined(h.city)
    && '\n' !in ShowUndefined(h.country)
  }

  /** Splitting the request prompt at its newlines recovers the labelled
      lines, each hint on its own line, in order. */
  lemma RequestPromptLines(h: RequestHints)
    requires SingleLineHints(h)
    ensures SplitOn(RequestPrompt(h), "\n") == HintLines(h)
  {
    var l := HintLines(h);
    forall i | 0 <= i < |l| ensures '\n' !in l[i] {
      if i == 2 { NoNewlineInConcat(TIME_LABEL, h.currentTime); }
      if i == 3 { NoNewlineInConcat(LATITUDE_LABEL, ShowUndefined(h.latitude)); }
      if i == 4 { NoNewlineInConcat(LONGITUDE_LABEL, ShowUndefined(h.longitude)); }
      if i == 5 { NoNewlineInConcat(CITY_LABEL, ShowUndefined(h.city)); }
      if i == 6 { NoNewlineInConcat(COUNTRY_LABEL, ShowUndefined(h.country)); }
    }
    SplitJoin(l, '\n');
  }

  lemma NoNewlineInConcat(tag: string, value: string)
    requires '\n' !in tag && '\n' !in value
    ensures '\n' !in tag + value
  {
  }

  /** Single-line hints are recoverable from the prompt: two requests with
      the same prompt render the same time and place. */
  lemma RequestPromptInjective(h1: RequestHints, h2: RequestHints)
    requires SingleLineHints(h1) && SingleLineHints(h2)
    requires RequestPrompt(h1) == RequestPrompt(h2)
    ensures h1.currentTime == h2.currentTime
    ensures ShowUndefined(h1.latitude) == ShowUndefined(h2.latitude)
    ensures ShowUndefined(h1.longitude) == ShowUndefined(h2.longitude)
    ensures ShowUndefined(h1.city) == ShowUndefined(h2.city)
    ensures ShowUndefined(h1.country) == ShowUndefined(h2.country)
  {
    RequestPromptLines(h1);
    RequestPromptLines(h2);
    var l1 := HintLines(h1);
    var l2 := HintLines(h2);
    assert l1 == l2;
    LabelledValue(TIME_LABEL, h1.currentTime, h2.currentTime, l1[2]);
    LabelledValue(LATITUDE_LABEL, ShowUndefined(h1.latitude), ShowUndefined(h2.latitude), l1[3]);
    LabelledValue(LONGITUDE_LABEL, ShowUndefined(h1.longitude), ShowUndefined(h2.longitude), l1[4]);
    LabelledValue(CITY_LABEL, ShowUndefined(h1.city), ShowUndefined(h2.city), l1[5]);
    LabelledValue(COUNTRY_LABEL, ShowUndefined(h1.country), ShowUndefined(h2.country), l1[6]);
  }

  lemma LabelledValue(tag: string, a: string, b: string, line: string)
    requires line == tag + a && line == tag + b
    ensures a == b
  {
    assert a == line[|tag|..];
    assert b == line[|tag|..];
  }

  /** The model id that reasons instead of producing artifacts. */
  const REASONING_MODEL: string := "chat-model-reasoning"

  /** `systemPrompt`: the regular prompt, the enhanced-search prompt, the
      artifacts prompt unless the reasoning model is selected, and the
      request hints, separated by blank lines. */
  function SystemPrompt(k: PromptConstants, selectedChatModel: string, h: RequestHints): (r: string)
    ensures selectedChatModel == REASONING_MODEL ==>
      r == Join([k.regular, k.enhancedSearch, RequestPrompt(h)], "\n\n")
    ensures selectedChatModel != REASONING_MODEL ==>
      r == Join([k.regular, k.enhancedSearch, k.artifacts, RequestPrompt(h)], "\n\n")
    ensures StartsWith(r, k.regular)
    ensures |r| >= |RequestPrompt(h)| && r[|r| - |RequestPrompt(h)|..] == RequestPrompt(h)
  {
    var requestPrompt := RequestPrompt(h);
    var r := if selectedChatModel == REASONING_MODEL
      then k.regular + "\n\n" + k.enhancedSearch + "\n\n" + requestPrompt
      else k.regular + "\n\n" + k.enhancedSearch + "\n\n" + k.artifacts + "\n\n" + requestPrompt;
    SectionsJoin(k, requestPrompt);
    assert r[..|k.regular|] == k.regular;
    r
  }

  lemma SectionsJoin(k: PromptConstants, requestPrompt: string)
    ensures Join([k.regular, k.enhancedSearch, requestPrompt], "\n\n")
         == k.regular + "\n\n" + k.enhancedSearch + "\n\n" + requestPrompt
    ensures Join([k.regular, k.enhancedSearch, k.artifacts, requestPrompt], "\n\n")
         == k.regular + "\n\n" + k.enhancedSearch + "\n\n" + k.artifacts + "\n\n" + requestPrompt
  {
    var sep := "\n\n";
    JoinCons(k.artifacts, [requestPrompt], sep);
    JoinCons(k.enhancedSearch, [requestPrompt], sep);
    JoinCons(k.enhancedSearch, [k.artifacts, requestPrompt], sep);
    JoinCons(k.regular, [k.enhancedSearch, requestPrompt], sep);
    JoinCons(k.regular, [k.enhancedSearch, k.artifacts, requestPrompt], sep);
  }

  /** Any other model gets the reasoning model's prompt with the artifacts
      prompt inserted right after the enhanced-search prompt. */
  lemma ArtifactsInserted(k: PromptConstants, selectedChatModel: string, h: RequestHints)
    requires selectedChatModel != REASONING_MODEL
    ensures SystemPrompt(k, selectedChatModel, h)
         == SystemPrompt(k.(enhancedSearch := k.enhancedSearch + "\n\n" + k.artifacts), REASONING_MODEL, h)
    ensures |SystemPrompt(k, selectedChatModel, h)|
         == |SystemPrompt(k, REASONING_MODEL, h)| + |k.artifacts| + 2
  {
    var rp := RequestPrompt(h);
    var head := k.regular + "\n\n";
    var middle := k.enhancedSearch + "\n\n" + k.artifacts;
    assert head + middle == head + k.enhancedSearch + "\n\n" + k.artifacts;
  }

  const TEXT_PREFIX: string := "다음 문서를 사용자의 요청에 따라 개선하세요."
  const CODE_PREFIX: string := "다음 코드를 사용자의 요청에 따라 개선하세요."
  const SHEET_PREFIX: string := "다음 스프레드시트를 사용자의 요청에 따라 개선하세요."

  /** The instruction that opens the update prompt for each editable kind;
      images have none. */
  function Instruction(kind: ArtifactKind): Option<string> {
    match kind
    case Text => Some(TEXT_PREFIX)
    case Code => Some(CODE_PREFIX)
    case Sheet => Some(SHEET_PREFIX)
    case Image => None
  }

  /** `updateDocumentPrompt`: the kind's instruction, a blank line, and the
      current content (a missing content renders as the text `null`); the
      empty string for a kind without an instruction. */
  function UpdateDocumentPrompt(currentContent: Option<string>, kind: ArtifactKind): (r: string)
    ensures r == "" <==> Instruction(kind).None?
    ensures Instruction(kind).Some? ==>
      var prefix := Instruction(kind).value + "\n\n";
      StartsWith(r, prefix) && r[|prefix|..] == ShowNull(currentContent)
  {
    if kind == Text then TEXT_PREFIX + "\n\n" + ShowNull(currentContent)
    else if kind == Code then CODE_PREFIX + "\n\n" + ShowNull(currentContent)
    else if kind == Sheet then SHEET_PREFIX + "\n\n" + ShowNull(currentContent)
    else ""
  }

  /** The update prompt determines which kind is edited and what content it
      showed: the three instructions already differ in their fourth
      character. */
  lemma UpdatePromptDeterminesRequest(c1: Option<string>, k1: ArtifactKind, c2: Option<string>, k2: ArtifactKind)
    requires k1 != Image && k2 != Image
    requires UpdateDocumentPrompt(c1, k1) == UpdateDocumentPrompt(c2, k2)
    ensures k1 == k2
    ensures ShowNull(c1) == ShowNull(c2)
  {
    var r := UpdateDocumentPrompt(c1, k1);
    assert r[3] == Instruction(k1).value[3] && r[3] == Instruction(k2).value[3];
    assert TEXT_PREFIX[3] == '문' && CODE_PREFIX[3] == '코' && SHEET_PREFIX[3] == '스';
  }
}
