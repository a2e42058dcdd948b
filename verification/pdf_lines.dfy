/** How `generate_contract_pdf` (pdf_generator.py) turns the contract text into
    PDF elements: each line is stripped and classified, with a skip mode that
    drops the old ASCII header block. The layout calls themselves (fonts,
    cells, spacing) are not modelled; each line yields at most one element. */
module PdfLines {
  import opened Results
  import opened Text

  /** What the loop draws for one line. */
  datatype Item =
    | ComparisonTable                                // `render_comparison_table`
    | ClauseTitle(head: string, tail: Option<string>) // one cell, or two cells split at the first '-'
    | Subtitle(text: string)
    | Body(text: string)                              // a `multi_cell` of at most 300 characters
    | Blank                                           // `pdf.ln(2)` for an empty line

  // ---------------------------------------------------------------------------
  // Character classes of Python's str methods (ASCII and Latin-1)
  // ---------------------------------------------------------------------------

  /** `str.strip()`. */
  function Strip(s: string): string {
    Trim(s, IsPySpace)
  }

  /** Upper-case letters (`isupper` on one character). */
  predicate IsPyUpperChar(c: char) {
    ('A' <= c <= 'Z') || ('\U{C0}' <= c <= '\U{DE}' && c != '\U{D7}')
  }

  /** Lower-case characters (`islower` on one character), including ª, µ and º. */
  predicate IsPyLowerChar(c: char) {
    ('a' <= c <= 'z') || ('\U{DF}' <= c <= '\U{FF}' && c != '\U{F7}')
    || c == '\U{AA}' || c == '\U{B5}' || c == '\U{BA}'
  }

  /** `str.isupper()`: some upper-case letter and no lower-case one. */
  predicate IsPyUpper(s: string) {
    (exists i :: 0 <= i < |s| && IsPyUpperChar(s[i])) && forall i :: 0 <= i < |s| ==> !IsPyLowerChar(s[i])
  }

  /** `str.isdigit()` on one character: the ASCII digits and the superscripts ¹ ² ³. */
  predicate IsPyDigit(c: char) {
    IsDigit(c) || c == '\U{B2}' || c == '\U{B3}' || c == '\U{B9}'
  }

  /** `.encode('latin-1', 'replace').decode('latin-1')`: characters beyond Latin-1 become '?'. */
  function Latin1(s: string): (r: string)
    ensures |r| == |s| && IsLatin1(r)
    ensures IsLatin1(s) ==> r == s
    ensures forall i :: 0 <= i < |s| && s[i] <= '\U{FF}' ==> r[i] == s[i]
    ensures forall i :: 0 <= i < |s| && !(s[i] <= '\U{FF}') ==> r[i] == '?'
  {
    seq(|s|, i requires 0 <= i < |s| => if s[i] <= '\U{FF}' then s[i] else '?')
  }

  predicate IsLatin1(s: string) {
    forall i :: 0 <= i < |s| ==> s[i] <= '\U{FF}'
  }

  /** Replacing is idempotent. */
  lemma Latin1Idempotent(s: string)
    ensures Latin1(Latin1(s)) == Latin1(s)
  {
  }

  /** `s[:n]`. */
  function Prefix(s: string, n: nat): (r: string)
    ensures |r| == if |s| <= n then |s| else n
    ensures r <= s
  {
    if |s| <= n then s else s[..n]
  }

  // ---------------------------------------------------------------------------
  // Classifying one stripped line
  // ---------------------------------------------------------------------------

  /** `set(linha).issubset({'-', '|', ' ', '+'})`: true of the empty line too. */
  predicate IsSeparator(line: string) {
    forall i :: 0 <= i < |line| ==> line[i] == '-' || line[i] == '|' || line[i] == ' ' || line[i] == '+'
  }

  predicate StartsSkip(line: string) {
    Contains(line, "CONTRATADA:") && Contains(line, "MICAELA")
  }

  predicate EndsSkip(line: string) {
    Contains(line, "Doravante denominado")
  }

  predicate IsTableHeader(line: string) {
    CountChar(line, '|') >= 2 && Contains(line, "Plano") && Contains(line, "Valor")
  }

  predicate IsClause(line: string) {
    Contains(Upper(line), "CLAUSULA")
  }

  /** `linha and (linha[0].isdigit() and '.' in linha[:5]) or linha.isupper()`. */
  predicate LooksLikeSubtitle(line: string) {
    (|line| > 0 && IsPyDigit(line[0]) && '.' in Prefix(line, 5)) || IsPyUpper(line)
  }

  /** `linha.split('-', 1)` drawn as one or two stripped cells. */
  function ClauseTitleOf(line: string): (r: Item)
    ensures r.ClauseTitle?
    ensures r.tail.None? <==> '-' !in line
    ensures r.tail.None? ==> r.head == line
    ensures r.tail.Some? ==> exists i :: 0 <= i < |line| && line[i] == '-' && '-' !in line[..i]
                                        && r.head == Strip(line[..i]) && r.tail.value == Strip(line[i + 1..])
  {
    if '-' in line then
      var i := FirstIndex(line, '-');
      ClauseTitle(Strip(line[..i]), Some(Strip(line[i + 1..])))
    else ClauseTitle(line, None)
  }

  /** The element drawn for a stripped line outside skip mode, `None` when the line is dropped. */
  function Classify(line: string): Option<Item> {
    if IsSeparator(line) then None
    else if IsTableHeader(line) then Some(ComparisonTable)
    else if CountChar(line, '|') >= 2 then None
    else if IsClause(line) then Some(ClauseTitleOf(line))
    else if LooksLikeSubtitle(line) && |line| < 100 then Some(Subtitle(Latin1(line)))
    else if line == "" then Some(Blank)
    else Some(Body(Prefix(Latin1(line), 300)))
  }

  /** Which lines are dropped, which draw the comparison table and which draw a clause title;
      what subtitles and body text carry; and that the empty-line gap is never reached, since an
      empty line already counts as a separator. */
  lemma ClassifySpec(line: string)
    ensures var r := Classify(line);
      && (r.None? <==> IsSeparator(line) || (CountChar(line, '|') >= 2 && !IsTableHeader(line)))
      && (r == Some(ComparisonTable) <==> !IsSeparator(line) && IsTableHeader(line))
      && (r.Some? && r.value.ClauseTitle? <==> !IsSeparator(line) && CountChar(line, '|') < 2 && IsClause(line))
      && (r.Some? && r.value.Subtitle? ==> LooksLikeSubtitle(line) && |line| < 100 && r.value.text == Latin1(line))
      && (r.Some? && r.value.Body? ==> r.value.text == Prefix(Latin1(line), 300) && |line| > 0)
      && r != Some(Blank)
  {
  }

  /** A line that is not a table line, not a clause and not a subtitle is body text; an
      upper-case line of 100 characters or more is body text too. */
  lemma BodyLines(line: string)
    requires !IsSeparator(line) && CountChar(line, '|') < 2 && !IsClause(line)
    ensures !(LooksLikeSubtitle(line) && |line| < 100) ==> Classify(line) == Some(Body(Prefix(Latin1(line), 300)))
    ensures LooksLikeSubtitle(line) && |line| < 100 ==> Classify(line) == Some(Subtitle(Latin1(line)))
  {
    ClassifySpec(line);
  }

  // ---------------------------------------------------------------------------
  // The loop over the lines
  // ---------------------------------------------------------------------------

  /** One iteration: the element drawn, if any, and the skip flag afterwards. */
  function Step(skip: bool, raw: string): (Option<Item>, bool) {
    var line := Strip(raw);
    if StartsSkip(line) then (None, true)
    else if EndsSkip(line) then (None, false)
    else if skip then (None, true)
    else (Classify(line), false)
  }

  /** The skip flag: set by a CONTRATADA/MICAELA line, cleared by a "Doravante denominado" line,
      otherwise kept; the trigger lines and every line in skip mode draw nothing, and any other
      line draws its classification. */
  lemma StepSpec(skip: bool, raw: string)
    ensures var r := Step(skip, raw);
      && (StartsSkip(Strip(raw)) ==> r == (None, true))
      && (!StartsSkip(Strip(raw)) && EndsSkip(Strip(raw)) ==> r == (None, false))
      && (!StartsSkip(Strip(raw)) && !EndsSkip(Strip(raw)) ==> r.1 == skip)
      && (skip && !EndsSkip(Strip(raw)) ==> r.0 == None)
      && (!skip && !StartsSkip(Strip(raw)) && !EndsSkip(Strip(raw)) ==> r.0 == Classify(Strip(raw)))
  {
  }

  /** Runs `step` over the lines from skip mode `skip`: the elements drawn, in order, and the final skip mode. */
  function Fold(step: (bool, string) -> (Option<Item>, bool), lines: seq<string>, skip: bool): (r: (seq<Item>, bool))
    ensures |r.0| <= |lines|
    decreases |lines|
  {
    if |lines| == 0 then ([], skip)
    else
      var s := step(skip, lines[0]);
      var rest := Fold(step, lines[1..], s.1);
      (Emitted(s.0) + rest.0, rest.1)
  }

  /** The element a step draws, as a sequence of zero or one. */
  function Emitted(o: Option<Item>): seq<Item> {
    if o.Some? then [o.value] else []
  }

  /** The elements drawn for `lines`, starting in skip mode `skip`, and the final skip mode. */
  function Render(lines: seq<string>, skip: bool): (r: (seq<Item>, bool))
    ensures |r.0| <= |lines|
  {
    Fold(Step, lines, skip)
  }

  /** The lines of the whole contract text, drawn from the start outside skip mode. */
  function RenderText(text: string): seq<Item> {
    Render(Split(text, '\n'), false).0
  }

  /** One step of the fold. */
  lemma FoldCons(step: (bool, string) -> (Option<Item>, bool), line: string, rest: seq<string>, skip: bool)
    ensures var s := step(skip, line);
      Fold(step, [line] + rest, skip) == (Emitted(s.0) + Fold(step, rest, s.1).0, Fold(step, rest, s.1).1)
  {
    assert ([line] + rest)[1..] == rest;
  }

  /** Folding over a concatenation folds the parts one after the other, threading the skip mode. */
  lemma {:induction false} FoldAppend(step: (bool, string) -> (Option<Item>, bool), a: seq<string>, b: seq<string>, skip: bool)
    ensures Fold(step, a + b, skip) == (Fold(step, a, skip).0 + Fold(step, b, Fold(step, a, skip).1).0,
                                        Fold(step, b, Fold(step, a, skip).1).1)
    decreases |a|
  {
    if |a| > 0 {
      var t := a[1..];
      assert a == [a[0]] + t;
      assert a + b == [a[0]] + (t + b);
      var s0 := step(skip, a[0]);
      FoldAppend(step, t, b, s0.1);
      FoldCons(step, a[0], t + b, skip);
      FoldCons(step, a[0], t, skip);
      FoldAppendStep(Emitted(s0.0), Fold(step, a, skip), Fold(step, t, s0.1), Fold(step, a + b, skip),
                     Fold(step, t + b, s0.1), Fold(step, b, Fold(step, t, s0.1).1));
    } else {
      assert a + b == b;
      assert Fold(step, a, skip) == ([], skip);
      var fb := Fold(step, b, skip);
      assert [] + fb.0 == fb.0;
    }
  }

  /** The cons step of `FoldAppend`, over the folds' values alone. */
  lemma FoldAppendStep(head: seq<Item>, fa: (seq<Item>, bool), ft: (seq<Item>, bool), fab: (seq<Item>, bool),
                       ftb: (seq<Item>, bool), fb: (seq<Item>, bool))
    requires fa == (head + ft.0, ft.1)
    requires fab == (head + ftb.0, ftb.1)
    requires ftb == (ft.0 + fb.0, fb.1)
    ensures fab == (fa.0 + fb.0, fb.1)
  {
    assert head + (ft.0 + fb.0) == (head + ft.0) + fb.0;
  }

  /** Rendering a concatenation renders the parts one after the other, threading the skip mode. */
  lemma RenderAppend(a: seq<string>, b: seq<string>, skip: bool)
    ensures Render(a + b, skip) == (Render(a, skip).0 + Render(b, Render(a, skip).1).0, Render(b, Render(a, skip).1).1)
  {
    FoldAppend(Step, a, b, skip);
  }

  /** The bounds every drawn element keeps: never an empty-line gap, body text of 1 to 300
      Latin-1 characters, and Latin-1 subtitles shorter than 100 characters. */
  predicate WellDrawn(it: Item) {
    && it != Blank
    && (it.Body? ==> 0 < |it.text| <= 300 && IsLatin1(it.text))
    && (it.Subtitle? ==> |it.text| < 100 && IsLatin1(it.text))
  }

  /** Every element drawn for any lines, from either skip mode, keeps the rendering bounds. */
  lemma {:induction false} RenderedItems(lines: seq<string>, skip: bool)
    ensures forall it :: it in Render(lines, skip).0 ==> WellDrawn(it)
    decreases |lines|
  {
    if |lines| > 0 {
      var line := lines[0];
      var s := Step(skip, line);
      var rest := Render(lines[1..], s.1);
      RenderedItems(lines[1..], s.1);
      StepItem(skip, line);
      FoldCons(Step, line, lines[1..], skip);
      assert [line] + lines[1..] == lines;
      assert Render(lines, skip).0 == Emitted(s.0) + rest.0;
    }
  }

  /** The element one step draws, if any, keeps the rendering bounds. */
  lemma StepItem(skip: bool, line: string)
    ensures forall it :: it in Emitted(Step(skip, line).0) ==> WellDrawn(it)
  {
    StepSpec(skip, line);
    ClassifiedWellDrawn(Strip(line));
  }

  /** A classified line draws at most one element, and it keeps the rendering bounds. */
  lemma ClassifiedWellDrawn(line: string)
    ensures forall it :: it in Emitted(Classify(line)) ==> WellDrawn(it)
  {
    ClassifySpec(line);
  }

  /** Inside skip mode nothing is drawn until a line carrying "Doravante denominado". */
  lemma {:induction false} SkippedBlockIsSilent(lines: seq<string>)
    requires forall k :: 0 <= k < |lines| ==> !EndsSkip(Strip(lines[k]))
    ensures Render(lines, true) == ([], true)
    decreases |lines|
  {
    if |lines| > 0 {
      StepSpec(true, lines[0]);
      SkippedBlockIsSilent(lines[1..]);
      assert Render(lines, true) == Render(lines[1..], true);
    }
  }

  /** The CONTRATADA/MICAELA line draws nothing and enters skip mode. */
  lemma StartLineSilent(start: string, skip: bool)
    requires StartsSkip(Strip(start))
    ensures Render([start], skip) == ([], true)
  {
    StepSpec(skip, start);
    assert [start][1..] == [];
    assert Fold(Step, [], true) == ([], true);
  }

  /** The "Doravante denominado" line draws nothing and leaves skip mode. */
  lemma EndLineResumes(end: string, rest: seq<string>)
    requires !StartsSkip(Strip(end)) && EndsSkip(Strip(end))
    ensures Render([end] + rest, true) == Render(rest, false)
  {
    var s := Step(true, end);
    StepSpec(true, end);
    assert s == (None, false);
    FoldCons(Step, end, rest, true);
    var f := Fold(Step, rest, false);
    assert [] + f.0 == f.0;
    assert Fold(Step, [end] + rest, true) == (f.0, f.1);
  }

  /** The old ASCII header block — the CONTRATADA line, the lines up to "Doravante denominado"
      and that line itself — draws nothing and leaves skip mode off for what follows. */
  lemma HeaderBlockDropped(start: string, block: seq<string>, end: string, rest: seq<string>, skip: bool)
    requires StartsSkip(Strip(start)) && !StartsSkip(Strip(end)) && EndsSkip(Strip(end))
    requires forall k :: 0 <= k < |block| ==> !EndsSkip(Strip(block[k]))
    ensures Render([start] + block + [end] + rest, skip) == Render(rest, false)
  {
    var pre := [start] + block;
    var post := [end] + rest;
    StartLineSilent(start, skip);
    SkippedBlockIsSilent(block);
    RenderAppend([start], block, skip);
    EndLineResumes(end, rest);
    RenderAppend(pre, post, skip);
    assert [start] + block + [end] + rest == pre + post;
  }

  // ---------------------------------------------------------------------------
  // The signature image
  // ---------------------------------------------------------------------------

  /** The base64 part of `signature_data` in `get_image_from_base64`: the second comma-separated
      field of a data URI, or the whole string when there is no comma. */
  function Base64Payload(s: string): (r: string)
    ensures ',' !in r
    ensures ',' !in s ==> r == s
    ensures ',' in s ==>
      var tail := s[FirstIndex(s, ',') + 1..];
      r <= tail && (',' in tail ==> tail[|r|] == ',')
  {
    if ',' in s then
      SplitFieldCount(s, ',');
      SplitAfterFirst(s, ',');
      var tail := s[FirstIndex(s, ',') + 1..];
      SplitFirstField(tail, ',');
      assert Split(s, ',')[1] == Split(tail, ',')[0];
      Split(s, ',')[1]
    else
      SplitFieldCount(s, ',');
      JoinSplit(s, ',');
      assert Split(s, ',') == [s];
      s
  }

  /** A data URI "<header>,<payload>" yields its payload. */
  lemma DataUriPayload(header: string, payload: string)
    requires ',' !in header && ',' !in payload
    ensures Base64Payload(header + "," + payload) == payload
  {
    assert Join([header, payload], ',') == header + "," + payload;
    SplitJoin([header, payload], ',');
  }
}
