/** What the fetch phase does with a PsychonautWiki page once its HTML is
    parsed: `pw_clean_common_name`, the assembly of the `aliases` list from the
    "Common names" cell (scrape.py:188-202) and the name test of
    `pw_should_skip`. */
module CommonNames {
  import opened Wrappers
  import opened Text
  import opened Order
  import opened Seqs

  /* Python's `$` (without MULTILINE) matches at the end of the string and
     just before a newline that ends it.  None of the patterns below can match
     that newline itself, so each `$`-anchored substitution edits the text in
     front of a final "\n" and keeps the "\n". */

  predicate EndsInNewline(s: string) {
    s != [] && s[|s| - 1] == '\n'
  }

  /** The text a `$`-anchored pattern has to end at. */
  function Body(s: string): string {
    if EndsInNewline(s) then s[..|s| - 1] else s
  }

  /** What follows that point: a final newline or nothing. */
  function Tail(s: string): string {
    if EndsInNewline(s) then "\n" else ""
  }

  /** `re.sub(pattern + "$", "", s)`, where `edit` gives what is left of the
      body once the match is removed, or None when the pattern does not match. */
  function SubAtEnd(s: string, edit: string -> Option<string>): string {
    match edit(Body(s))
    case None => s
    case Some(kept) => kept + Tail(s)
  }

  /** `re.sub(r'^"', "", s)` */
  function DropLeadingQuote(s: string): string {
    if s != [] && s[0] == '"' then s[1..] else s
  }

  /** The match of `"$` */
  function EditQuote(b: string): Option<string> {
    if b != [] && b[|b| - 1] == '"' then Some(b[..|b| - 1]) else None
  }

  /** Length of the run of digits that ends `s`. */
  function TrailingDigits(s: string): (n: nat)
    ensures n <= |s|
    ensures forall k :: |s| - n <= k < |s| ==> IsDigit(s[k])
    ensures n == |s| || !IsDigit(s[|s| - n - 1])
  {
    if s != [] && IsDigit(s[|s| - 1]) then 1 + TrailingDigits(s[..|s| - 1]) else 0
  }

  /** Where the leftmost match of `"?\[\d*\]` that ends `b` starts: the `[`
      in front of the digits before the final `]`, or the quote before it. */
  function CitationStart(b: string): (r: Option<nat>)
    ensures r.Some? ==> r.value < |b|
  {
    if b != [] && b[|b| - 1] == ']' then
      var inner := b[..|b| - 1];
      var d := TrailingDigits(inner);
      if d < |inner| && inner[|inner| - d - 1] == '[' then
        var open := |inner| - d - 1;
        Some(if open > 0 && inner[open - 1] == '"' then open - 1 else open)
      else None
    else None
  }

  /** `b[i..]` is a `[`, digits and the final `]`. */
  predicate BracketAt(b: string, i: nat) {
    i + 1 < |b| && b[i] == '[' && b[|b| - 1] == ']'
    && forall k :: i < k < |b| - 1 ==> IsDigit(b[k])
  }

  /** `b[i..]` is a whole match of `"?\[\d*\]`. */
  predicate CitationAt(b: string, i: nat) {
    BracketAt(b, i) || (i < |b| && b[i] == '"' && BracketAt(b, i + 1))
  }

  /** A bracket that ends `b` opens where the trailing digits in front of the
      final `]` begin. */
  lemma BracketAtOpen(b: string, p: nat)
    requires BracketAt(b, p)
    ensures TrailingDigits(b[..|b| - 1]) == |b| - 2 - p
  {
    var inner := b[..|b| - 1];
    assert forall k :: p < k < |inner| ==> IsDigit(inner[k]);
  }

  /** CitationStart finds the leftmost match: it returns a position where the
      pattern matches through the end of `b`, and no match starts before it;
      it returns None only when the pattern matches nowhere. */
  lemma CitationStartLeftmost(b: string)
    ensures CitationStart(b).Some? ==> CitationAt(b, CitationStart(b).value)
    ensures forall i: nat :: CitationAt(b, i) ==> CitationStart(b).Some? && CitationStart(b).value <= i
  {
    forall i: nat | CitationAt(b, i)
      ensures CitationStart(b).Some? && CitationStart(b).value <= i
    {
      if BracketAt(b, i) {
        BracketAtOpen(b, i);
      } else {
        BracketAtOpen(b, i + 1);
      }
    }
  }

  /** The match of `"?\[\d*\]$` */
  function EditCitation(b: string): Option<string> {
    match CitationStart(b)
    case None => None
    case Some(i) => Some(b[..i])
  }

  const MoreNames := "More names."

  /** The match of `\s*More names\.$`: the leftmost match starts where the
      whitespace in front of "More names." starts. */
  function EditMoreNames(b: string): Option<string> {
    if EndsWith(b, MoreNames) then Some(StripEnd(b[..|b| - |MoreNames|])) else None
  }

  /** The match of `\.$` */
  function EditDot(b: string): Option<string> {
    if b != [] && b[|b| - 1] == '.' then Some(b[..|b| - 1]) else None
  }

  /** `pw_clean_common_name(name)`: the five substitutions in order, then `strip()`. */
  function CleanCommonName(name: string): (r: string)
    ensures r != [] ==> !IsSpace(r[0]) && !IsSpace(r[|r| - 1])
  {
    var s1 := DropLeadingQuote(name);
    var s2 := SubAtEnd(s1, EditQuote);
    var s3 := SubAtEnd(s2, EditCitation);
    var s4 := SubAtEnd(s3, EditMoreNames);
    var s5 := SubAtEnd(s4, EditDot);
    Strip(s5)
  }

  /** A name no step of the cleaning touches. */
  predicate Plain(w: string) {
    w != [] && !IsSpace(w[0]) && !IsSpace(w[|w| - 1])
    && w[0] != '"' && w[|w| - 1] != '"' && w[|w| - 1] != ']' && w[|w| - 1] != '.'
  }

  predicate AllDigits(d: string) {
    forall k :: 0 <= k < |d| ==> IsDigit(d[k])
  }

  /** Nothing, or the one newline a `$` may stand in front of. */
  predicate LineEnd(tail: string) {
    tail == "" || tail == "\n"
  }

  lemma SubAtEndOf(b: string, tail: string, edit: string -> Option<string>)
    requires b != [] && b[|b| - 1] != '\n' && LineEnd(tail)
    ensures SubAtEnd(b + tail, edit) == (if edit(b).Some? then edit(b).value else b) + tail
  {
    var s := b + tail;
    if tail == "" {
      assert s == b;
    } else {
      assert s[..|s| - 1] == b;
    }
  }

  lemma NoMoreNamesWithoutDot(s: string)
    requires s != [] && s[|s| - 1] != '.'
    ensures !EndsWith(s, MoreNames)
  {
    if |MoreNames| <= |s| {
      assert s[|s| - |MoreNames|..][|MoreNames| - 1] == s[|s| - 1];
    }
  }

  /** The last two substitutions leave `w + tail` alone. */
  lemma LastStepsUntouched(w: string, tail: string)
    requires Plain(w) && LineEnd(tail)
    ensures SubAtEnd(SubAtEnd(w + tail, EditMoreNames), EditDot) == w + tail
  {
    NoMoreNamesWithoutDot(w);
    SubAtEndOf(w, tail, EditMoreNames);
    SubAtEndOf(w, tail, EditDot);
  }

  /** `strip()` removes the line end and nothing of `w`. */
  lemma StripOfLine(w: string, tail: string)
    requires Plain(w) && LineEnd(tail)
    ensures Strip(w + tail) == w
  {
    var s := w + tail;
    assert s[0] == w[0] && s[|w| - 1] == w[|w| - 1];
    assert SkipSpace(s, 0) == 0;
    BackSpaceAt(s, 0, |s|, |w|);
    assert s[0..|w|] == w;
  }

  lemma StripEndOfGap(w: string, gap: string)
    requires w != [] && !IsSpace(w[|w| - 1]) && forall k :: 0 <= k < |gap| ==> IsSpace(gap[k])
    ensures StripEnd(w + gap) == w
  {
    var s := w + gap;
    assert s[|w| - 1] == w[|w| - 1];
    assert forall k :: |w| <= k < |s| ==> s[k] == gap[k - |w|];
    BackSpaceAt(s, 0, |s|, |w|);
    assert s[..|w|] == w;
  }

  /** The cleaning of `s` ends in `w` when the substitutions take it, step
      by step, to `w` followed by a line end. */
  lemma CleanChain(s: string, s2: string, s3: string, s4: string, w: string, tail: string)
    requires Plain(w) && LineEnd(tail)
    requires SubAtEnd(DropLeadingQuote(s), EditQuote) == s2
    requires SubAtEnd(s2, EditCitation) == s3
    requires SubAtEnd(s3, EditMoreNames) == s4
    requires SubAtEnd(s4, EditDot) == w + tail
    ensures CleanCommonName(s) == w
  {
    StripOfLine(w, tail);
  }

  /** An already clean name comes out unchanged, also with a final newline. */
  lemma CleanPlain(w: string, tail: string)
    requires Plain(w) && LineEnd(tail)
    ensures CleanCommonName(w + tail) == w
  {
    var s := w + tail;
    assert EditQuote(w) == None && CitationStart(w) == None;
    assert DropLeadingQuote(s) == s by { assert s[0] == w[0]; }
    assert SubAtEnd(s, EditQuote) == s by { SubAtEndOf(w, tail, EditQuote); }
    assert SubAtEnd(s, EditCitation) == s by { SubAtEndOf(w, tail, EditCitation); }
    LastStepsUntouched(w, tail);
    CleanChain(s, s, s, SubAtEnd(s, EditMoreNames), w, tail);
  }

  lemma {:induction false} TrailingDigitsAfter(x: string, d: string)
    requires x != [] && !IsDigit(x[|x| - 1]) && AllDigits(d)
    ensures TrailingDigits(x + d) == |d|
  {
    if d != [] {
      assert (x + d)[..|x + d| - 1] == x + d[..|d| - 1];
      TrailingDigitsAfter(x, d[..|d| - 1]);
    } else {
      assert x + d == x;
    }
  }

  /** The citation `opener + d + "]"` after a clean name starts right after it,
      whether `opener` is "[" or "\"[". */
  lemma CitationStartOf(w: string, opener: string, d: string)
    requires Plain(w) && AllDigits(d)
    requires opener == "[" || opener == "\"["
    ensures CitationStart(w + opener + d + "]") == Some(|w|)
  {
    var b := w + opener + d + "]";
    var inner := (w + opener) + d;
    assert b[..|b| - 1] == inner;
    TrailingDigitsAfter(w + opener, d);
    assert inner[|inner| - |d| - 1] == '[';
    assert inner[|w| - 1] == w[|w| - 1];
    if opener == "\"[" {
      assert inner[|w|] == '"';
    }
  }

  /** A clean name followed by a citation: the quote step finds nothing, the
      citation step cuts the citation off. */
  lemma CitationEdits(w: string, opener: string, d: string)
    requires Plain(w) && AllDigits(d)
    requires opener == "[" || opener == "\"["
    ensures EditQuote(w + opener + d + "]") == None
    ensures EditCitation(w + opener + d + "]") == Some(w)
  {
    CitationStartOf(w, opener, d);
    assert (w + opener + d + "]")[..|w|] == w;
  }

  /** A trailing citation such as "[12]" goes, with a quote in front of it and
      in front of a final newline too, as `$` allows. */
  lemma CleanCitation(w: string, d: string, tail: string)
    requires Plain(w) && AllDigits(d) && LineEnd(tail)
    ensures CleanCommonName(w + "[" + d + "]" + tail) == w
  {
    var b := w + "[" + d + "]";
    var s := b + tail;
    CitationEdits(w, "[", d);
    assert DropLeadingQuote(s) == s by { assert s[0] == w[0]; }
    assert SubAtEnd(s, EditQuote) == s by { SubAtEndOf(b, tail, EditQuote); }
    assert SubAtEnd(s, EditCitation) == w + tail by { SubAtEndOf(b, tail, EditCitation); }
    LastStepsUntouched(w, tail);
    CleanChain(s, s, w + tail, SubAtEnd(w + tail, EditMoreNames), w, tail);
  }

  lemma CleanQuotedCitation(w: string, d: string, tail: string)
    requires Plain(w) && AllDigits(d) && LineEnd(tail)
    ensures CleanCommonName("\"" + w + "\"[" + d + "]" + tail) == w
  {
    var b := w + "\"[" + d + "]";
    var s := b + tail;
    CitationEdits(w, "\"[", d);
    assert DropLeadingQuote("\"" + w + "\"[" + d + "]" + tail) == s by {
      assert ("\"" + w + "\"[" + d + "]" + tail)[1..] == s;
    }
    assert SubAtEnd(s, EditQuote) == s by { SubAtEndOf(b, tail, EditQuote); }
    assert SubAtEnd(s, EditCitation) == w + tail by { SubAtEndOf(b, tail, EditCitation); }
    LastStepsUntouched(w, tail);
    CleanChain("\"" + w + "\"[" + d + "]" + tail, s, w + tail, SubAtEnd(w + tail, EditMoreNames), w, tail);
  }

  /** A clean name, whitespace and "More names.": the first two steps find
      nothing, the third cuts off the whitespace and "More names.". */
  lemma MoreNamesEdits(w: string, gap: string)
    requires Plain(w)
    requires forall k :: 0 <= k < |gap| ==> IsSpace(gap[k])
    ensures EditQuote(w + gap + MoreNames) == None && EditCitation(w + gap + MoreNames) == None
    ensures EditMoreNames(w + gap + MoreNames) == Some(w)
  {
    var b := w + gap + MoreNames;
    assert b[|b| - 1] == '.';
    assert b[..|b| - |MoreNames|] == w + gap;
    assert b[|b| - |MoreNames|..] == MoreNames;
    StripEndOfGap(w, gap);
  }

  /** A trailing "More names." goes with the whitespace in front of it. */
  lemma CleanMoreNames(w: string, gap: string, tail: string)
    requires Plain(w) && LineEnd(tail)
    requires forall k :: 0 <= k < |gap| ==> IsSpace(gap[k])
    ensures CleanCommonName(w + gap + MoreNames + tail) == w
  {
    var b := w + gap + MoreNames;
    var s := b + tail;
    MoreNamesEdits(w, gap);
    assert DropLeadingQuote(s) == s by { assert s[0] == w[0]; }
    assert SubAtEnd(s, EditQuote) == s by { SubAtEndOf(b, tail, EditQuote); }
    assert SubAtEnd(s, EditCitation) == s by { SubAtEndOf(b, tail, EditCitation); }
    assert SubAtEnd(s, EditMoreNames) == w + tail by { SubAtEndOf(b, tail, EditMoreNames); }
    assert SubAtEnd(w + tail, EditDot) == w + tail by { SubAtEndOf(w, tail, EditDot); }
    CleanChain(s, s, s, w + tail, w, tail);
  }

  /** What each substitution finds in a clean name followed by a full stop:
      only the last one matches. */
  lemma FinalDotEdits(w: string)
    requires Plain(w) && !EndsWith(w, MoreNames[..|MoreNames| - 1])
    ensures EditQuote(w + ".") == None && EditCitation(w + ".") == None
    ensures EditMoreNames(w + ".") == None && EditDot(w + ".") == Some(w)
  {
    var b := w + ".";
    if |MoreNames| <= |b| {
      assert b[|b| - |MoreNames|..] == w[|w| - (|MoreNames| - 1)..] + ".";
      assert b[|b| - |MoreNames|..][..|MoreNames| - 1] == w[|w| - (|MoreNames| - 1)..];
    }
    assert b[..|b| - 1] == w;
  }

  /** One final full stop goes (unless it ends "More names.", which the step
      before removes whole). */
  lemma CleanFinalDot(w: string, tail: string)
    requires Plain(w) && LineEnd(tail) && !EndsWith(w, MoreNames[..|MoreNames| - 1])
    ensures CleanCommonName(w + "." + tail) == w
  {
    var b := w + ".";
    var s := b + tail;
    FinalDotEdits(w);
    assert DropLeadingQuote(s) == s by { assert s[0] == w[0]; }
    assert SubAtEnd(s, EditQuote) == s by { SubAtEndOf(b, tail, EditQuote); }
    assert SubAtEnd(s, EditCitation) == s by { SubAtEndOf(b, tail, EditCitation); }
    assert SubAtEnd(s, EditMoreNames) == s by { SubAtEndOf(b, tail, EditMoreNames); }
    assert SubAtEnd(s, EditDot) == w + tail by { SubAtEndOf(b, tail, EditDot); }
    CleanChain(s, s, s, s, w, tail);
  }

  /** The name test of `pw_should_skip(name, soup)`; whether the page has a
      "Routes of Administration" section is given as `hasRouteSection`. */
  predicate ShouldSkip(name: Option<string>, hasRouteSection: bool) {
    name.None? || name.value == "" || StartsWith(name.value, "Experience:") || !hasRouteSection
  }

  /** A page that is kept has a non-empty title that is not an "Experience:" page. */
  lemma KeptPagesHaveTitles(name: Option<string>, hasRouteSection: bool)
    requires !ShouldSkip(name, hasRouteSection)
    ensures name.Some? && |name.value| > 0 && hasRouteSection
    ensures !StartsWith(name.value, "Experience:")
  {
  }

  /** `x` is what cleaning makes of one piece of the "Common names" cell. */
  ghost predicate FromCell(cellText: Option<string>, x: string) {
    cellText.Some? && exists piece :: piece in Split(cellText.value, ", ") && CleanCommonName(piece) == x
  }

  /** The cleaned pieces of the cell, split on ", ", or none without a cell. */
  function CellNames(cellText: Option<string>): (r: seq<string>)
    ensures forall x :: x in r <==> FromCell(cellText, x)
  {
    if cellText.None? then []
    else
      var pieces := Split(cellText.value, ", ");
      MapMembers(CleanCommonName, pieces);
      Map(CleanCommonName, pieces)
  }

  /** Lines 188-202: the cleaned pieces of the "Common names" cell (when the
      page has one), plus the name the API knows the substance by, without the
      page title, deduplicated and sorted. */
  function PwCommonNames(cellText: Option<string>, apiName: string, title: string): (r: seq<string>)
    ensures StrictlySorted(r)
    ensures title !in r
    ensures forall x :: x in r <==> x != title && (x == apiName || FromCell(cellText, x))
  {
    var named := CellNames(cellText) + [apiName];
    assert forall x :: x in named <==> x == apiName || FromCell(cellText, x);
    SortedDistinct(Filter(n => n != title, named))
  }
}
