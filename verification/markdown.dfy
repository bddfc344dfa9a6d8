/** The paragraph renderer of components/markdown.tsx: a paragraph whose text
    carries the control token `<has_function_call>` is shown with the token
    replaced by an icon (currently the empty string). */
module Markdown {
  import opened Strings

  const TARGET_TOKEN: string := "<has_function_call>"
  const EMOJI: string := ""

  // ---------------------------------------------------------------------------
  // String.prototype.trim
  // ---------------------------------------------------------------------------

  /** The characters `trim` removes: the ECMAScript white space (tab,
      vertical tab, form feed, space, no-break space, byte order mark and the
      Unicode space separators) and line terminators. */
  predicate IsJsSpace(c: char) {
    var n := c as int;
    || n == 0x09 || n == 0x0A || n == 0x0B || n == 0x0C || n == 0x0D || n == 0x20
    || n == 0xA0 || n == 0x1680 || (0x2000 <= n <= 0x200A) || n == 0x2028 || n == 0x2029
    || n == 0x202F || n == 0x205F || n == 0x3000 || n == 0xFEFF
  }

  predicate AllSpace(s: string) {
    forall i :: 0 <= i < |s| ==> IsJsSpace(s[i])
  }

  function TrimStart(s: string): (r: string)
    ensures |r| <= |s| && r == s[|s| - |r|..]
    ensures AllSpace(s[..|s| - |r|])
    ensures |r| > 0 ==> !IsJsSpace(r[0])
  {
    if |s| > 0 && IsJsSpace(s[0]) then
      var r := TrimStart(s[1..]);
      var cut := |s| - |r|;
      assert AllSpace(s[..cut]) by {
        forall i | 0 <= i < cut ensures IsJsSpace(s[..cut][i]) {
          if i > 0 {
            assert s[..cut][i] == s[1..][..cut - 1][i - 1];
          }
        }
      }
      assert r == s[cut..] by { assert s[1..][cut - 1..] == s[cut..]; }
      r
    else s
  }

  function TrimEnd(s: string): (r: string)
    ensures |r| <= |s| && r == s[..|r|]
    ensures AllSpace(s[|r|..])
    ensures |r| > 0 ==> !IsJsSpace(r[|r| - 1])
  {
    if |s| > 0 && IsJsSpace(s[|s| - 1]) then
      var r := TrimEnd(s[..|s| - 1]);
      assert AllSpace(s[|r|..]) by {
        var tail := s[|r|..];
        forall k | 0 <= k < |tail| ensures IsJsSpace(tail[k]) {
          if k < |tail| - 1 {
            assert tail[k] == s[..|s| - 1][|r|..][k];
          }
        }
      }
      assert r == s[..|r|] by { assert s[..|s| - 1][..|r|] == s[..|r|]; }
      r
    else s
  }

  /** `s.trim()`: `s` without its leading and trailing white space. */
  function Trim(s: string): (r: string)
    ensures exists i, j :: 0 <= i <= j <= |s| && r == s[i..j] && AllSpace(s[..i]) && AllSpace(s[j..])
    ensures |r| > 0 ==> !IsJsSpace(r[0]) && !IsJsSpace(r[|r| - 1])
  {
    var t := TrimStart(s);
    var r := TrimEnd(t);
    TrimBothEnds(s, t, r);
    r
  }

  /** Cutting white space off the start of `s` and then off the end of
      what remains leaves a middle stretch of `s`. */
  lemma TrimBothEnds(s: string, t: string, r: string)
    requires |t| <= |s| && t == s[|s| - |t|..] && AllSpace(s[..|s| - |t|])
    requires |t| > 0 ==> !IsJsSpace(t[0])
    requires |r| <= |t| && r == t[..|r|] && AllSpace(t[|r|..])
    requires |r| > 0 ==> !IsJsSpace(r[|r| - 1])
    ensures var i := |s| - |t|;
      0 <= i <= i + |r| <= |s| && r == s[i..i + |r|] && AllSpace(s[..i]) && AllSpace(s[i + |r|..])
    ensures |r| > 0 ==> !IsJsSpace(r[0]) && !IsJsSpace(r[|r| - 1])
  {
    var i := |s| - |t|;
    var j := i + |r|;
    assert r == s[i..j] by { assert t[..|r|] == s[i..j]; }
    assert AllSpace(s[j..]) by { assert s[j..] == t[|r|..]; }
    assert |r| > 0 ==> r[0] == t[0];
  }

  /** Trimming twice trims nothing more. */
  lemma TrimIdempotent(s: string)
    ensures Trim(Trim(s)) == Trim(s)
  {
    var r := Trim(s);
    if |r| > 0 {
      assert TrimStart(r) == r;
      assert TrimEnd(r) == r;
    }
  }

  // ---------------------------------------------------------------------------
  // includes and replaceAll
  // ---------------------------------------------------------------------------

  /** `p` occurs in `s` starting at index `i`. */
  predicate OccursAt(s: string, p: string, i: int) {
    0 <= i <= |s| - |p| && s[i..i + |p|] == p
  }

  /** `s.includes(p)`. */
  predicate Contains(s: string, p: string) {
    exists i :: 0 <= i <= |s| - |p| && OccursAt(s, p, i)
  }

  /** `s.replaceAll(p, rep)` for a non-empty pattern and a replacement
      taken literally: scanning from the left, each occurrence is replaced
      and the scan resumes after it, so the replaced occurrences never
      overlap. JavaScript expands `$` patterns (`$&`, `$$`, `$1`, ...) in a
      replacement string; this function does not, so it agrees with
      `replaceAll` only for a replacement without `$`, such as the empty
      string the renderer passes. */
  function ReplaceAll(s: string, p: string, rep: string): string
    requires |p| > 0
    decreases |s|
  {
    if |s| == 0 then ""
    else if StartsWith(s, p) then rep + ReplaceAll(s[|p|..], p, rep)
    else [s[0]] + ReplaceAll(s[1..], p, rep)
  }

  /** How many occurrences the same scan replaces. */
  function Occurrences(s: string, p: string): nat
    requires |p| > 0
    decreases |s|
  {
    if |s| == 0 then 0
    else if StartsWith(s, p) then 1 + Occurrences(s[|p|..], p)
    else Occurrences(s[1..], p)
  }

  /** Each replaced occurrence changes the length by the difference of the
      replacement and the pattern. */
  lemma {:induction false} ReplaceAllLength(s: string, p: string, rep: string)
    requires |p| > 0
    ensures |ReplaceAll(s, p, rep)| == |s| + Occurrences(s, p) * (|rep| - |p|)
    decreases |s|
  {
    if |s| > 0 {
      if StartsWith(s, p) {
        var t := s[|p|..];
        ReplaceAllLength(t, p, rep);
        assert |ReplaceAll(s, p, rep)| == |rep| + |ReplaceAll(t, p, rep)|;
        assert Occurrences(s, p) == Occurrences(t, p) + 1;
        OneMore(Occurrences(t, p), |rep| - |p|);
      } else {
        ReplaceAllLength(s[1..], p, rep);
      }
    }
  }

  lemma OneMore(n: int, d: int)
    ensures (n + 1) * d == n * d + d
  {
  }

  /** The scan replaces something exactly when the pattern occurs. */
  lemma {:induction false} OccurrencesContains(s: string, p: string)
    requires |p| > 0
    ensures Occurrences(s, p) > 0 <==> Contains(s, p)
    decreases |s|
  {
    if |s| > 0 {
      if StartsWith(s, p) {
        assert OccursAt(s, p, 0);
      } else {
        OccurrencesContains(s[1..], p);
        if Contains(s, p) {
          var i :| 0 <= i <= |s| - |p| && OccursAt(s, p, i);
          assert i != 0;
          OccursInTail(s, p, i - 1);
        }
        if Contains(s[1..], p) {
          var i :| 0 <= i <= |s[1..]| - |p| && OccursAt(s[1..], p, i);
          OccursInTail(s, p, i);
        }
      }
    }
  }

  /** An occurrence in the tail of `s` is an occurrence in `s`, one further on. */
  lemma OccursInTail(s: string, p: string, i: int)
    requires |s| > 0 && i >= 0
    ensures OccursAt(s[1..], p, i) <==> OccursAt(s, p, i + 1)
  {
    if 0 <= i <= |s| - 1 - |p| {
      assert s[1..][i..i + |p|] == s[i + 1..i + 1 + |p|];
    }
  }

  /** Text without the pattern comes back unchanged. */
  lemma {:induction false} ReplaceAllAbsent(s: string, p: string, rep: string)
    requires |p| > 0
    requires Occurrences(s, p) == 0
    ensures ReplaceAll(s, p, rep) == s
    decreases |s|
  {
    if |s| > 0 {
      ReplaceAllAbsent(s[1..], p, rep);
      assert [s[0]] + s[1..] == s;
    }
  }

  /** The literal replacement agrees with the other way JavaScript code
      writes it, `s.split(p).join(rep)`; for a replacement without `$` that
      is also what `replaceAll` computes. */
  lemma {:induction false} ReplaceAllIsSplitJoin(s: string, p: string, rep: string)
    requires |p| > 0
    ensures ReplaceAll(s, p, rep) == Join(SplitOn(s, p), rep)
    decreases |s|
  {
    if StartsWith(s, p) {
      ReplaceAllIsSplitJoin(s[|p|..], p, rep);
      JoinCons("", SplitOn(s[|p|..], p), rep);
    } else if |s| > 0 {
      ReplaceAllIsSplitJoin(s[1..], p, rep);
      var rest := SplitOn(s[1..], p);
      if |rest| > 1 {
        JoinCons(rest[0], rest[1..], rep);
        assert rest == [rest[0]] + rest[1..];
        JoinCons([s[0]] + rest[0], rest[1..], rep);
      }
    }
  }

  // ---------------------------------------------------------------------------
  // The paragraph renderer
  // ---------------------------------------------------------------------------

  /** What the renderer emits: an icon `span`, or a paragraph with text. */
  datatype Rendered = Icon(content: string) | Paragraph(content: string)

  /** The `p` component applied to the paragraph's text: a paragraph that is
      just the token becomes the icon; one that contains it has every
      occurrence replaced in its trimmed text; any other passes through as
      it was, untrimmed. */
  function RenderParagraph(children: string): (r: Rendered)
    ensures r.Icon? <==> Trim(children) == TARGET_TOKEN
    ensures r.Icon? ==> r.content == EMOJI && EMOJI == ""
    ensures r.Paragraph? && Contains(Trim(children), TARGET_TOKEN) ==>
      && r.content == Join(SplitOn(Trim(children), TARGET_TOKEN), EMOJI)
      && |r.content| == |Trim(children)| - |TARGET_TOKEN| * Occurrences(Trim(children), TARGET_TOKEN)
      && |r.content| < |Trim(children)|
    ensures !Contains(Trim(children), TARGET_TOKEN) ==> r == Paragraph(children)
  {
    var text := Trim(children);
    if text == TARGET_TOKEN then
      assert OccursAt(text, TARGET_TOKEN, 0);
      Icon(EMOJI)
    else if Contains(text, TARGET_TOKEN) then
      TokenRemoved(text);
      Paragraph(ReplaceAll(text, TARGET_TOKEN, EMOJI))
    else
      Paragraph(children)
  }

  /** Replacing the token by the empty icon is the split-join form, and
      shortens the text by the token's length per replaced occurrence. */
  lemma TokenRemoved(text: string)
    requires Contains(text, TARGET_TOKEN)
    ensures var r := ReplaceAll(text, TARGET_TOKEN, EMOJI);
      && r == Join(SplitOn(text, TARGET_TOKEN), EMOJI)
      && |r| == |text| - |TARGET_TOKEN| * Occurrences(text, TARGET_TOKEN)
      && |r| < |text|
  {
    ReplaceAllIsSplitJoin(text, TARGET_TOKEN, EMOJI);
    ReplaceAllLength(text, TARGET_TOKEN, EMOJI);
    OccurrencesContains(text, TARGET_TOKEN);
  }

  /** A text shorter than the pattern holds no occurrence. */
  lemma {:induction false} ShortHasNoOccurrence(s: string, p: string)
    requires 0 < |p| && |s| < |p|
    ensures Occurrences(s, p) == 0
    decreases |s|
  {
    if |s| > 0 {
      ShortHasNoOccurrence(s[1..], p);
    }
  }

  /** The scan copies a stretch of text in which no occurrence starts. */
  lemma {:induction false} ReplaceAllSkips(a: string, t: string, p: string, rep: string)
    requires |p| > 0
    requires forall k :: 0 <= k < |a| ==> !StartsWith((a + t)[k..], p)
    ensures ReplaceAll(a + t, p, rep) == a + ReplaceAll(t, p, rep)
    decreases |a|
  {
    if |a| > 0 {
      var s := a + t;
      assert s[0..] == s;
      assert s[1..] == a[1..] + t;
      forall k | 0 <= k < |a| - 1 ensures !StartsWith((a[1..] + t)[k..], p) {
        assert (a[1..] + t)[k..] == s[k + 1..];
      }
      assert !StartsWith(s, p);
      ReplaceAllSkips(a[1..], t, p, rep);
      assert ReplaceAll(s, p, rep) == [s[0]] + ReplaceAll(a[1..] + t, p, rep);
      assert [a[0]] + (a[1..] + ReplaceAll(t, p, rep)) == ([a[0]] + a[1..]) + ReplaceAll(t, p, rep);
      assert [a[0]] + a[1..] == a;
    } else {
      assert a + t == t;
    }
  }

  /** Removing an occurrence of `p` that sits between a proper prefix and
      the matching suffix of `p` puts `p` back together, provided no
      occurrence starts inside the prefix. */
  lemma SpliceReassembles(head: string, p: string, tail: string)
    requires |p| > 0 && p == head + tail && |tail| < |p|
    requires forall k :: 0 <= k < |head| ==> !StartsWith((head + (p + tail))[k..], p)
    ensures ReplaceAll(head + p + tail, p, "") == p
  {
    var t := p + tail;
    assert head + p + tail == head + t;
    ReplaceAllSkips(head, t, p, "");
    assert ReplaceAll(t, p, "") == ReplaceAll(tail, p, "") by {
      assert StartsWith(t, p);
      assert t[|p|..] == tail;
    }
    assert ReplaceAll(tail, p, "") == tail by {
      ShortHasNoOccurrence(tail, p);
      ReplaceAllAbsent(tail, p, "");
    }
    calc {
      ReplaceAll(head + p + tail, p, "");
      ReplaceAll(head + t, p, "");
      head + ReplaceAll(t, p, "");
      head + tail;
      p;
    }
  }

  /** A paragraph whose text is the token with another token spliced into
      its middle. */
  const SPLICED: string := "<has_" + TARGET_TOKEN + "function_call>"

  /** The spliced paragraph is not the token itself, and has no
      surrounding whitespace to trim. */
  lemma SplicedTrimmed(children: string)
    requires children == SPLICED
    ensures children != TARGET_TOKEN
    ensures Trim(children) == children
  {
    assert |children| != |TARGET_TOKEN|;
    assert children[0] == '<' && children[|children| - 1] == '>';
    assert TrimStart(children) == children;
    assert TrimEnd(children) == children;
  }

  /** Removing the inner token puts the outer one back together. */
  lemma SplicedReassembles(children: string)
    requires children == SPLICED
    ensures ReplaceAll(children, TARGET_TOKEN, EMOJI) == TARGET_TOKEN
  {
    var head := "<has_";
    var tail := "function_call>";
    assert TARGET_TOKEN == head + tail;
    forall k | 0 <= k < |head| ensures !StartsWith((head + (TARGET_TOKEN + tail))[k..], TARGET_TOKEN) {
      assert (head + (TARGET_TOKEN + tail))[k..][5 - k] == '<';
      assert TARGET_TOKEN[5 - k] != '<';
    }
    SpliceReassembles(head, TARGET_TOKEN, tail);
  }

  lemma SplicedContainsToken()
    ensures Contains(SPLICED, TARGET_TOKEN)
  {
    assert SPLICED[5..5 + |TARGET_TOKEN|] == TARGET_TOKEN;
    assert OccursAt(SPLICED, TARGET_TOKEN, 5);
  }

  /** A trimmed paragraph that holds the token without being it is
      rendered with every occurrence replaced. */
  lemma RenderReplaces(text: string)
    requires Trim(text) == text && text != TARGET_TOKEN && Contains(text, TARGET_TOKEN)
    ensures RenderParagraph(text) == Paragraph(ReplaceAll(text, TARGET_TOKEN, EMOJI))
  {
    ReplaceAllIsSplitJoin(text, TARGET_TOKEN, EMOJI);
  }

  lemma TokenContainsItself()
    ensures Contains(TARGET_TOKEN, TARGET_TOKEN)
  {
    assert OccursAt(TARGET_TOKEN, TARGET_TOKEN, 0);
  }

  /** The replacement does not make the text token-free: removing the token
      from the middle of `<has_…function_call>` splices a new one together. */
  lemma ReplacementCanSpliceToken(children: string)
    requires children == SPLICED
    ensures Contains(Trim(children), TARGET_TOKEN)
    ensures RenderParagraph(children) == Paragraph(TARGET_TOKEN)
    ensures Contains(RenderParagraph(children).content, TARGET_TOKEN)
  {
    SplicedTrimmed(children);
    SplicedReassembles(children);
    SplicedContainsToken();
    RenderReplaces(children);
    TokenContainsItself();
  }
}
