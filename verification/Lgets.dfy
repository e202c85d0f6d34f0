/**
  lgets: read a Tcl list from a channel, going on to further lines while an element is open.
*/
module Lgets {
  import opened Common

  datatype Failure = EofInElement | EofBeforeNewline | GarbageAfterBrace | GarbageAfterQuote

  /** One element, where the next one starts, and the end of the last line read for it. */
  datatype Item = Item(value: string, next: nat, limit: nat) | Garbage(failure: Failure, limit: nat) | OutOfLines

  /** What one lgets does: the elements, and where it leaves the channel. */
  datatype Outcome = Eof | List(elems: seq<string>, end: nat) | Bad(failure: Failure, end: nat)

  // ---------------------------------------------------------------- lines

  /** The end of the last line among the first n characters that ends in a newline. */
  function LinesEnd(text: string, n: nat): (end: nat)
    requires n <= |text|
    ensures end <= n && (end > 0 ==> text[end - 1] == '\n')
  {
    if n == 0 || text[n - 1] == '\n' then n else LinesEnd(text, n - 1)
  }

  lemma {:induction false} NoLineAfter(text: string, n: nat, i: nat)
    requires n <= |text| && LinesEnd(text, n) <= i < n
    ensures text[i] != '\n'
  {
    if i < n - 1 { NoLineAfter(text, n - 1, i); }
  }

  predicate Complete(lines: string) {
    lines == "" || lines[|lines| - 1] == '\n'
  }

  /** The part of the channel that lgets can use: its complete lines. */
  function Lines(text: string): (lines: string)
    ensures Complete(lines) && lines <= text
  {
    text[..LinesEnd(text, |text|)]
  }

  ghost predicate AreLines(lines: string, text: string) {
    && Complete(lines) && |lines| <= |text|
    && (forall i {:trigger text[i]} :: 0 <= i < |lines| ==> lines[i] == text[i])
    && forall i :: |lines| <= i < |text| ==> text[i] != '\n'
  }

  lemma LinesAre(lines: string, text: string)
    ensures AreLines(lines, text) <==> lines == Lines(text)
  {
    var end := LinesEnd(text, |text|);
    forall i | end <= i < |text| ensures text[i] != '\n' {
      NoLineAfter(text, |text|, i);
    }
    if AreLines(lines, text) {
      assert end > 0 ==> text[end - 1] == '\n';
      assert lines != "" ==> text[|lines| - 1] == '\n';
      assert end == |lines|;
      assert lines == text[..end];
    }
  }

  /** The end of the line that position i is in. */
  function LineEnd(lines: string, i: nat): (end: nat)
    requires Complete(lines) && i < |lines|
    ensures i < end <= |lines| && lines[end - 1] == '\n'
    decreases |lines| - i
  {
    if lines[i] == '\n' then i + 1 else LineEnd(lines, i + 1)
  }

  lemma {:induction false} LineEndIs(lines: string, i: nat, end: nat)
    requires Complete(lines) && i < end <= |lines| && lines[end - 1] == '\n'
    requires forall j :: i <= j < end - 1 ==> lines[j] != '\n'
    ensures LineEnd(lines, i) == end
    decreases |lines| - i
  {
    if i < end - 1 { LineEndIs(lines, i + 1, end); }
  }

  /** Positions of one line agree on its end. */
  lemma {:induction false} SameLine(lines: string, i: nat, j: nat)
    requires Complete(lines) && i <= j < |lines| && j < LineEnd(lines, i)
    ensures LineEnd(lines, j) == LineEnd(lines, i)
    decreases j - i
  {
    if i < j { SameLine(lines, i + 1, j); }
  }

  function SkipSpace(lines: string, i: nat, limit: nat): (p: nat)
    requires i <= limit <= |lines|
    ensures i <= p <= limit && (p < limit ==> !IsSpace(lines[p]))
    decreases limit - i
  {
    if i < limit && IsSpace(lines[i]) then SkipSpace(lines, i + 1, limit) else i
  }

  // ---------------------------------------------------------------- elements

  /** The three forms of a list element. */
  datatype Style = Braced | Quoted | Bare

  function StyleOf(c: char): Style {
    if c == '{' then Braced else if c == '"' then Quoted else Bare
  }

  /** The braces open after the first character. */
  function Depth(style: Style): nat {
    if style.Braced? then 1 else 0
  }

  predicate Ends(c: char, style: Style) {
    match style case Braced => c == '}' case Quoted => c == '"' case Bare => IsSpace(c)
  }

  /** The braces open after c, when depth were before it. */
  function Deeper(c: char, style: Style, depth: nat): nat {
    if !style.Braced? then depth
    else if c == '{' then depth + 1
    else if c == '}' && depth > 0 then depth - 1
    else depth
  }

  /** Tcl_Backslash: the character that the backslash sequence at a place in a text stands for, and
      how many characters the sequence takes. */
  type Decoder = (string, nat) -> (char, nat)

  /** At least one character is taken, and none beyond the text. */
  function Decoded(d: Decoder, text: string, at: nat): (r: (char, nat))
    requires at < |text|
    ensures 1 <= r.1 <= |text| - at
    ensures 1 <= d(text, at).1 <= |text| - at ==> r == d(text, at)
  {
    if 1 <= d(text, at).1 <= |text| - at then d(text, at) else ('\\', 1)
  }

  /** The backslash sequence at i, within its line. */
  function Sequence(d: Decoder, lines: string, i: nat): (r: (char, nat))
    requires Complete(lines) && i < |lines|
    ensures 1 <= r.1 && i + r.1 <= LineEnd(lines, i)
  {
    Decoded(d, lines[..LineEnd(lines, i)], i)
  }

  /** The loop that looks for the end of an element: where it stands, the end of the last line read,
      and the braces open. */
  datatype Cursor = Cursor(at: nat, limit: nat, depth: nat)

  /** One turn: on to a further character or line, at the end of the element, or out of lines. */
  datatype Move = Go(cursor: Cursor) | Found(cursor: Cursor) | NoEnd

  ghost predicate CursorOk(lines: string, c: Cursor, style: Style) {
    && Complete(lines) && c.at <= c.limit <= |lines| && (c.depth > 0 <==> style.Braced?)
    && (c.at < c.limit ==> c.limit == LineEnd(lines, c.at))
  }

  /** An element ends at the matching close brace, at the next quote, or at white space or the end of
      the lines read. Backslash sequences are passed over. */
  function Turn(d: Decoder, lines: string, c: Cursor, style: Style): (m: Move)
    requires CursorOk(lines, c, style)
    ensures m.Go? ==> CursorOk(lines, m.cursor, style) && c.at <= m.cursor.at && c.limit <= m.cursor.limit
    ensures m.Go? ==> c.at < m.cursor.at || c.limit < m.cursor.limit
    ensures m.Found? ==> m.cursor == c && (style.Bare? || (c.at < c.limit && Ends(lines[c.at], style)))
  {
    if c.at == c.limit then
      if style.Bare? then Found(c)
      else if c.limit == |lines| then NoEnd
      else Go(Cursor(c.at, LineEnd(lines, c.limit), c.depth))
    else if lines[c.at] == '\\' then
      var next := c.at + Sequence(d, lines, c.at).1;
      assert next < c.limit ==> LineEnd(lines, next) == c.limit by {
        if next < c.limit { SameLine(lines, c.at, next); }
      }
      Go(Cursor(next, c.limit, c.depth))
    else if Ends(lines[c.at], style) && Deeper(lines[c.at], style, c.depth) == 0 then Found(c)
    else Go(Cursor(c.at + 1, c.limit, Deeper(lines[c.at], style, c.depth)))
  }

  /** Where the loop stops, if it does not run out of lines. */
  function Scan(d: Decoder, lines: string, c: Cursor, style: Style): (r: Option<Cursor>)
    requires CursorOk(lines, c, style)
    ensures r.Some? ==> CursorOk(lines, r.value, style) && c.at <= r.value.at && c.limit <= r.value.limit
    ensures r.Some? && !style.Bare? ==> r.value.at < r.value.limit && Ends(lines[r.value.at], style)
    decreases |lines| - c.at, |lines| - c.limit
  {
    var m := Turn(d, lines, c, style);
    if m.NoEnd? then None else if m.Found? then Some(m.cursor) else Scan(d, lines, m.cursor, style)
  }

  /** The text between two positions with its backslash sequences replaced. */
  function Unescaped(d: Decoder, lines: string, from: nat, to: nat): string
    requires Complete(lines) && to <= |lines|
    decreases if from < to then to - from else 0
  {
    if from >= to then ""
    else if lines[from] == '\\' then
      var (c, n) := Sequence(d, lines, from);
      [c] + Unescaped(d, lines, from + n, to)
    else [lines[from]] + Unescaped(d, lines, from + 1, to)
  }

  /** In braces the text is taken as it is. */
  function Value(d: Decoder, lines: string, from: nat, to: nat, style: Style): string
    requires Complete(lines) && from <= to <= |lines|
  {
    if style.Braced? then lines[from..to] else Unescaped(d, lines, from, to)
  }

  /** The element with value v that ends at c, and what follows it on the line. */
  function Close(lines: string, v: string, c: Cursor, style: Style): (r: Item)
    requires CursorOk(lines, c, style) && (style.Bare? || c.at < c.limit)
    ensures r.Item? ==> r.limit == c.limit && c.at <= r.next <= c.limit && (style.Bare? || c.at < r.next)
    ensures r.Item? && r.next < r.limit ==> !IsSpace(lines[r.next]) && LineEnd(lines, r.next) == r.limit
  {
    var past := if style.Bare? then c.at else c.at + 1;
    if !style.Bare? && past < c.limit && !IsSpace(lines[past]) then
      Garbage(if style.Braced? then GarbageAfterBrace else GarbageAfterQuote, c.limit)
    else
      var next := SkipSpace(lines, past, c.limit);
      assert next < c.limit ==> LineEnd(lines, next) == c.limit by {
        if next < c.limit { SameLine(lines, c.at, next); }
      }
      Item(v, next, c.limit)
  }

  /** An element may start at i, in the last line read. */
  ghost predicate Starts(lines: string, i: nat, limit: nat) {
    Complete(lines) && i <= limit <= |lines| && (i < limit ==> !IsSpace(lines[i]) && limit == LineEnd(lines, i))
  }

  /** The scan of the element at i. */
  function Start(lines: string, i: nat, limit: nat): (c: Cursor)
    requires Starts(lines, i, limit) && i < limit
    ensures CursorOk(lines, c, StyleOf(lines[i]))
  {
    var style := StyleOf(lines[i]);
    Cursor(if style.Bare? then i else i + 1, limit, Depth(style))
  }

  /** The element at i. */
  function Element(d: Decoder, lines: string, i: nat, limit: nat): (r: Item)
    requires Starts(lines, i, limit) && i < limit
    ensures r.Item? ==> i < r.next && Starts(lines, r.next, r.limit)
  {
    var style, start := StyleOf(lines[i]), Start(lines, i, limit);
    var end := Scan(d, lines, start, style);
    if end.None? then OutOfLines
    else Close(lines, Value(d, lines, start.at, end.value.at, style), end.value, style)
  }

  /** The outcome when es have been read before. */
  function After(es: seq<string>, rest: Outcome): Outcome {
    if rest.List? then List(es + rest.elems, rest.end) else rest
  }

  /** The elements from i on, when the lines up to limit have been read. */
  function Elements(d: Decoder, lines: string, i: nat, limit: nat, eof: Outcome): Outcome
    requires Starts(lines, i, limit)
    decreases |lines| - i
  {
    if i == limit then List([], limit)
    else
      var item := Element(d, lines, i, limit);
      if item.OutOfLines? then eof
      else if item.Garbage? then Bad(item.failure, item.limit)
      else After([item.value], Elements(d, lines, item.next, item.limit, eof))
  }

  lemma {:induction false} AfterElement(d: Decoder, es: seq<string>, lines: string, i: nat, limit: nat, eof: Outcome)
    requires Starts(lines, i, limit) && i < limit && eof.Bad?
    ensures After(es, Elements(d, lines, i, limit, eof)) ==
            var item := Element(d, lines, i, limit);
            if item.OutOfLines? then eof
            else if item.Garbage? then Bad(item.failure, item.limit)
            else After(es + [item.value], Elements(d, lines, item.next, item.limit, eof))
  {
    var item := Element(d, lines, i, limit);
    if item.Item? {
      AfterTwo(es, item.value, Elements(d, lines, item.next, item.limit, eof));
    }
  }

  lemma AfterTwo(es: seq<string>, v: string, rest: Outcome)
    ensures After(es, After([v], rest)) == After(es + [v], rest)
  {
    if rest.List? { assert es + ([v] + rest.elems) == es + [v] + rest.elems; }
  }

  lemma {:induction false} AfterNone(d: Decoder, es: seq<string>, lines: string, limit: nat, eof: Outcome)
    requires Complete(lines) && limit <= |lines|
    ensures After(es, Elements(d, lines, limit, limit, eof)) == List(es, limit)
  {
    assert es + [] == es;
  }

  /** The lines run out in the middle of a list. */
  function Truncated(text: string): Failure {
    if text == "" || text[|text| - 1] == '\n' then EofInElement else EofBeforeNewline
  }

  /** Where the first element may start. */
  function First(lines: string): (i: nat)
    requires Complete(lines) && lines != ""
    ensures Starts(lines, i, LineEnd(lines, 0))
  {
    var i := SkipSpace(lines, 0, LineEnd(lines, 0));
    assert i < LineEnd(lines, 0) ==> LineEnd(lines, i) == LineEnd(lines, 0) by {
      if i < LineEnd(lines, 0) { SameLine(lines, 0, i); }
    }
    i
  }

  /** What lgets reads from a channel that has the text to come. */
  function ReadList(d: Decoder, text: string): Outcome {
    var lines := Lines(text);
    if text == "" then Eof
    else if lines == "" then Bad(EofBeforeNewline, |text|)
    else Elements(d, lines, First(lines), LineEnd(lines, 0), Bad(Truncated(text), |text|))
  }

  // ---------------------------------------------------------------- writing and reading back

  /** The braces opened less those closed in the first n characters. */
  function Nesting(e: string, n: nat): int
    requires n <= |e|
  {
    if n == 0 then 0
    else Nesting(e, n - 1) + (if e[n - 1] == '{' then 1 else if e[n - 1] == '}' then -1 else 0)
  }

  ghost predicate Balanced(e: string) {
    Nesting(e, |e|) == 0 && forall n :: 0 <= n <= |e| ==> Nesting(e, n) >= 0
  }

  /** No character starts a backslash sequence, or ends an element that is not in braces. */
  ghost predicate Plain(e: string, style: Style) {
    forall k :: 0 <= k < |e| ==> e[k] != '\\' && (style.Braced? || !Ends(e[k], style))
  }

  /** The characters that need a backslash, and what is put after it. */
  predicate Special(c: char) {
    IsSpace(c) || c == '{' || c == '}' || c == '"' || c == '\\'
  }

  function Letter(c: char): char {
    if c == '\t' then 't' else if c == '\n' then 'n' else if c == 11 as char then 'v'
    else if c == 12 as char then 'f' else if c == '\r' then 'r' else c
  }

  function EscapeChar(c: char): string {
    if Special(c) then ['\\', Letter(c)] else [c]
  }

  /** The first n characters with backslashes where they are needed. */
  function EscapeFirst(e: string, n: nat): (w: string)
    requires n <= |e|
    ensures |w| >= n
  {
    if n == 0 then "" else EscapeFirst(e, n - 1) + EscapeChar(e[n - 1])
  }

  function Escape(e: string): string {
    EscapeFirst(e, |e|)
  }

  /** The decoder knows the sequences that Escape uses. */
  ghost predicate Unescapes(d: Decoder) {
    forall text: string, at: nat, c: char {:trigger d(text, at), Letter(c)} ::
      Special(c) && at + 1 < |text| && text[at] == '\\' && text[at + 1] == Letter(c) ==> d(text, at) == (c, 2)
  }

  /** How a value is written: in braces, in quotes or as it is, without or with backslashes. */
  datatype Form = InBraces | EscapedInBraces | InQuotes | EscapedInQuotes | AsIs | Escaped

  function Read(form: Form): Style {
    if form.InBraces? || form.EscapedInBraces? then Braced
    else if form.InQuotes? || form.EscapedInQuotes? then Quoted
    else Bare
  }

  /** In braces, backslashes are part of the value. */
  ghost predicate IsEscaped(e: string) {
    exists u :: e == Escape(u)
  }

  /** Which values can be written in which form. Any value can be written in some form: the empty
      one in braces or quotes, any other with backslashes. */
  ghost predicate CanWrite(e: string, form: Form) {
    match form
    case InBraces => Balanced(e) && Plain(e, Braced)
    case EscapedInBraces => IsEscaped(e)
    case InQuotes => Plain(e, Quoted)
    case EscapedInQuotes => true
    case AsIs => e != "" && StyleOf(e[0]).Bare? && Plain(e, Bare)
    case Escaped => e != ""
  }

  /** What stands between the braces or quotes. */
  function Inside(e: string, form: Form): (w: string)
    ensures |w| >= |e|
  {
    if form.Escaped? || form.EscapedInQuotes? then Escape(e) else e
  }

  function Written(e: string, form: Form): (w: string)
    ensures |w| >= |e|
  {
    match Read(form)
    case Braced => "{" + Inside(e, form) + "}"
    case Quoted => "\"" + Inside(e, form) + "\""
    case Bare => Inside(e, form)
  }

  /** White space that does not end the line. */
  ghost predicate Gap(w: string) {
    forall k :: 0 <= k < |w| ==> White(w[k]) && w[k] != '\n'
  }

  /** A list to write: values, the form of each, and the white space behind it. */
  datatype Items = End | Cons(value: string, form: Form, gap: string, rest: Items) {
    ghost predicate Writable() {
      End? || (CanWrite(value, form) && Gap(gap) && (rest.Cons? ==> gap != "") && rest.Writable())
    }

    /** There is white space behind the last one too. */
    ghost predicate Apart() {
      End? || (gap != "" && rest.Apart())
    }

    function Values(): seq<string> {
      if End? then [] else [value] + rest.Values()
    }

    /** The list, and what follows it: on one line, or on several when values hold newlines. */
    function Text(tail: string): (w: string)
      ensures |w| >= |tail|
    {
      if End? then tail else Written(value, form) + (gap + rest.Text(tail))
    }
  }

  /** The text w stands at i. */
  predicate At(lines: string, i: nat, w: string) {
    i + |w| <= |lines| && Same(lines, i, w, |w|)
  }

  predicate Same(lines: string, i: nat, w: string, n: nat)
    requires n <= |w| && i + n <= |lines|
  {
    n == 0 || (lines[i + n - 1] == w[n - 1] && Same(lines, i, w, n - 1))
  }

  lemma {:induction false} SameIff(lines: string, i: nat, w: string, n: nat)
    requires n <= |w| && i + n <= |lines|
    ensures Same(lines, i, w, n) <==> forall k :: 0 <= k < n ==> lines[i + k] == w[k]
  {
    if n > 0 {
      SameIff(lines, i, w, n - 1);
      assert lines[i + (n - 1)] == lines[i + n - 1];
    }
  }

  lemma {:induction false} AtParts(lines: string, i: nat, a: string, b: string)
    requires At(lines, i, a + b)
    ensures At(lines, i, a) && At(lines, i + |a|, b)
  {
    SameIff(lines, i, a + b, |a + b|);
    forall k | 0 <= k < |a| ensures lines[i + k] == a[k] { assert (a + b)[k] == a[k]; }
    forall k | 0 <= k < |b| ensures lines[i + |a| + k] == b[k] { assert (a + b)[|a| + k] == b[k]; }
    SameIff(lines, i, a, |a|);
    SameIff(lines, i + |a|, b, |b|);
  }

  lemma {:induction false} AtFirst(lines: string, i: nat, w: string)
    requires At(lines, i, w) && w != ""
    ensures lines[i] == w[0]
  {
    SameIff(lines, i, w, |w|);
    assert lines[i + 0] == w[0];
  }

  /** The cursor is in the last line read, or just behind it with more lines to come. */
  ghost predicate InLine(lines: string, c: Cursor, style: Style) {
    CursorOk(lines, c, style) && c.at < |lines| && (style.Bare? ==> c.at < c.limit)
  }

  /** A position with its line read. */
  function On(lines: string, p: nat, depth: nat): Cursor
    requires Complete(lines) && p < |lines|
  {
    Cursor(p, LineEnd(lines, p), depth)
  }

  lemma {:induction false} ScanOn(d: Decoder, lines: string, c: Cursor, style: Style)
    requires InLine(lines, c, style)
    ensures Scan(d, lines, c, style) == Scan(d, lines, On(lines, c.at, c.depth), style)
  {
    if c.limit == c.at { assert Turn(d, lines, c, style) == Go(On(lines, c.at, c.depth)); }
  }

  function Next(lines: string, c: Cursor, style: Style): Cursor
    requires Complete(lines) && c.at < |lines|
  {
    Cursor(c.at + 1, LineEnd(lines, c.at), Deeper(lines[c.at], style, c.depth))
  }

  /** An ordinary character. */
  lemma {:induction false} ScanStep(d: Decoder, lines: string, c: Cursor, style: Style)
    requires InLine(lines, c, style) && c.at + 1 < |lines| && lines[c.at] != '\\'
    requires style.Bare? ==> !IsSpace(lines[c.at])
    requires !(Ends(lines[c.at], style) && Deeper(lines[c.at], style, c.depth) == 0)
    ensures InLine(lines, Next(lines, c, style), style)
    ensures Scan(d, lines, c, style) == Scan(d, lines, Next(lines, c, style), style)
  {
    ScanOn(d, lines, c, style);
    assert Turn(d, lines, On(lines, c.at, c.depth), style) == Go(Next(lines, c, style));
  }

  /** The character that ends the element. */
  lemma {:induction false} ScanLast(d: Decoder, lines: string, c: Cursor, style: Style)
    requires InLine(lines, c, style) && lines[c.at] != '\\'
    requires Ends(lines[c.at], style) && Deeper(lines[c.at], style, c.depth) == 0
    ensures Scan(d, lines, c, style) == Some(On(lines, c.at, c.depth))
  {
    ScanOn(d, lines, c, style);
    assert Turn(d, lines, On(lines, c.at, c.depth), style) == Found(On(lines, c.at, c.depth));
  }

  /** In quotes or without, the scan goes on to the first character that ends the element. */
  lemma {:induction false} PlainScan(d: Decoder, lines: string, c: Cursor, style: Style, q: nat)
    requires InLine(lines, c, style) && !style.Braced? && c.at <= q < |lines| && Ends(lines[q], style)
    requires forall k :: c.at <= k < q ==> lines[k] != '\\' && !Ends(lines[k], style)
    ensures Scan(d, lines, c, style) == Some(On(lines, q, 0))
    decreases q - c.at
  {
    if c.at == q {
      ScanLast(d, lines, c, style);
    } else {
      ScanStep(d, lines, c, style);
      PlainScan(d, lines, Next(lines, c, style), style, q);
    }
  }

  /** In braces, the scan goes on to the brace that closes the first one: the depth is what the
      characters passed make it. */
  lemma {:induction false} BracedScan(d: Decoder, lines: string, from: nat, c: Cursor, q: nat)
    requires InLine(lines, c, Braced) && from <= c.at <= q < |lines| && lines[q] == '}'
    requires Nesting(lines, q) == Nesting(lines, from) && c.depth == 1 + Nesting(lines, c.at) - Nesting(lines, from)
    requires forall k :: from <= k <= q ==> Nesting(lines, k) >= Nesting(lines, from)
    requires forall k :: from <= k < q ==> lines[k] != '\\'
    ensures Scan(d, lines, c, Braced) == Some(On(lines, q, 1))
    decreases q - c.at
  {
    if c.at == q {
      ScanLast(d, lines, c, Braced);
    } else {
      assert Nesting(lines, c.at + 1) >= Nesting(lines, from);
      ScanStep(d, lines, c, Braced);
      BracedScan(d, lines, from, Next(lines, c, Braced), q);
    }
  }

  lemma {:induction false} NestingInside(lines: string, i: nat, e: string, n: nat)
    requires At(lines, i, e) && n <= |e|
    ensures Nesting(lines, i + n) == Nesting(lines, i) + Nesting(e, n)
  {
    if n > 0 {
      NestingInside(lines, i, e, n - 1);
      SameIff(lines, i, e, |e|);
      assert lines[i + (n - 1)] == e[n - 1];
    }
  }

  lemma {:induction false} BalancedInside(lines: string, from: nat, e: string)
    requires At(lines, from, e) && Balanced(e)
    ensures Nesting(lines, from + |e|) == Nesting(lines, from)
    ensures forall k :: from <= k <= from + |e| ==> Nesting(lines, k) >= Nesting(lines, from)
  {
    NestingInside(lines, from, e, |e|);
    forall k | from <= k <= from + |e| ensures Nesting(lines, k) >= Nesting(lines, from) {
      NestingInside(lines, from, e, k - from);
    }
  }

  /** An escaped character in the text. */
  lemma {:induction false} SequenceIs(d: Decoder, lines: string, p: nat, c: char)
    requires Unescapes(d) && Special(c) && Complete(lines) && p + 2 < |lines|
    requires lines[p] == '\\' && lines[p + 1] == Letter(c)
    ensures Sequence(d, lines, p) == (c, 2) && p + 2 < LineEnd(lines, p) == LineEnd(lines, p + 2)
  {
    var limit := LineEnd(lines, p);
    assert limit == LineEnd(lines, p + 1);
    assert lines[..limit][p] == '\\' && lines[..limit][p + 1] == Letter(c);
  }

  lemma {:induction false} EscapePrefix(e: string, n: nat)
    requires n <= |e|
    ensures var w := EscapeFirst(e, n);
            |w| <= |Escape(e)| && forall k :: 0 <= k < |w| ==> Escape(e)[k] == w[k]
    decreases |e| - n
  {
    if n < |e| {
      EscapePrefix(e, n + 1);
      var w, w' := EscapeFirst(e, n), EscapeFirst(e, n + 1);
      assert w' == w + EscapeChar(e[n]);
      assert forall k :: 0 <= k < |w| ==> w'[k] == w[k];
    }
  }

  /** Where the n-th character of an escaped text is. */
  lemma {:induction false} EscapedAt(lines: string, i: nat, e: string, n: nat, p: nat)
    requires At(lines, i, Escape(e)) && n < |e| && p == i + |EscapeFirst(e, n)|
    ensures p + |EscapeChar(e[n])| == i + |EscapeFirst(e, n + 1)| <= i + |Escape(e)|
    ensures if Special(e[n]) then lines[p] == '\\' && lines[p + 1] == Letter(e[n]) else lines[p] == e[n]
  {
    EscapePrefix(e, n + 1);
    SameIff(lines, i, Escape(e), |Escape(e)|);
    var m, w' := |EscapeFirst(e, n)|, EscapeFirst(e, n + 1);
    assert w'[m] == EscapeChar(e[n])[0] && lines[i + m] == Escape(e)[m];
    assert Special(e[n]) ==> w'[m + 1] == EscapeChar(e[n])[1] && lines[i + (m + 1)] == Escape(e)[m + 1];
  }

  /** From p to q the characters of e stand escaped, from the n-th on. */
  ghost predicate Encodes(lines: string, p: nat, q: nat, e: string, n: nat)
    requires n <= |e| && q < |lines|
    decreases |e| - n
  {
    if n == |e| then p == q
    else
      && p + |EscapeChar(e[n])| <= q
      && (if Special(e[n]) then lines[p] == '\\' && lines[p + 1] == Letter(e[n]) else lines[p] == e[n])
      && Encodes(lines, p + |EscapeChar(e[n])|, q, e, n + 1)
  }

  lemma {:induction false} AtEncodes(lines: string, i: nat, e: string, n: nat, p: nat, q: nat)
    requires At(lines, i, Escape(e)) && n <= |e| && p == i + |EscapeFirst(e, n)| && q == i + |Escape(e)| < |lines|
    ensures Encodes(lines, p, q, e, n)
    decreases |e| - n
  {
    if n < |e| {
      EscapedAt(lines, i, e, n, p);
      AtEncodes(lines, i, e, n + 1, p + |EscapeChar(e[n])|, q);
    }
  }

  /** Escaped text is passed. */
  lemma {:induction false} EscapedScan(d: Decoder, lines: string, e: string, n: nat, c: Cursor, style: Style, q: nat)
    requires Unescapes(d) && InLine(lines, c, style) && c.depth == Depth(style) && n <= |e|
    requires q < |lines| && Ends(lines[q], style) && Encodes(lines, c.at, q, e, n)
    ensures Scan(d, lines, c, style) == Some(On(lines, q, Depth(style)))
    decreases |e| - n
  {
    if n == |e| {
      ScanLast(d, lines, c, style);
    } else if Special(e[n]) {
      SequenceStep(d, lines, c, style, e[n]);
      EscapedScan(d, lines, e, n + 1, Cursor(c.at + 2, LineEnd(lines, c.at), c.depth), style, q);
    } else {
      ScanStep(d, lines, c, style);
      EscapedScan(d, lines, e, n + 1, Next(lines, c, style), style, q);
    }
  }

  /** A backslash sequence is passed. */
  lemma {:induction false} SequenceStep(d: Decoder, lines: string, c: Cursor, style: Style, x: char)
    requires Unescapes(d) && Special(x) && InLine(lines, c, style) && c.at + 2 < |lines|
    requires lines[c.at] == '\\' && lines[c.at + 1] == Letter(x)
    ensures InLine(lines, Cursor(c.at + 2, LineEnd(lines, c.at), c.depth), style)
    ensures Scan(d, lines, c, style) == Scan(d, lines, Cursor(c.at + 2, LineEnd(lines, c.at), c.depth), style)
  {
    ScanOn(d, lines, c, style);
    SequenceIs(d, lines, c.at, x);
    assert Turn(d, lines, On(lines, c.at, c.depth), style) == Go(Cursor(c.at + 2, LineEnd(lines, c.at), c.depth));
  }

  lemma {:induction false} UnescapedOne(d: Decoder, lines: string, p: nat, c: char, p': nat, q: nat)
    requires Unescapes(d) && Complete(lines) && p + |EscapeChar(c)| == p' <= q < |lines|
    requires if Special(c) then lines[p] == '\\' && lines[p + 1] == Letter(c) else lines[p] == c
    ensures Unescaped(d, lines, p, q) == [c] + Unescaped(d, lines, p', q)
  {
    if Special(c) { SequenceIs(d, lines, p, c); }
  }

  /** u is e from n on. */
  ghost predicate IsRest(u: string, e: string, n: nat) {
    n + |u| == |e| && forall k :: 0 <= k < |u| ==> u[k] == e[n + k]
  }

  /** Escaped text stands for the original. */
  lemma {:induction false} EscapedValue(d: Decoder, lines: string, e: string, n: nat, p: nat, q: nat)
    requires Unescapes(d) && Complete(lines) && n <= |e| && q < |lines| && Encodes(lines, p, q, e, n)
    ensures IsRest(Unescaped(d, lines, p, q), e, n)
    decreases |e| - n
  {
    if n < |e| {
      var p' := p + |EscapeChar(e[n])|;
      EscapedValue(d, lines, e, n + 1, p', q);
      EscapedBack(d, lines, e, n, p, p', q);
    }
  }

  lemma {:induction false} EscapedBack(d: Decoder, lines: string, e: string, n: nat, p: nat, p': nat, q: nat)
    requires Unescapes(d) && Complete(lines) && n < |e| && p + |EscapeChar(e[n])| == p' <= q < |lines|
    requires if Special(e[n]) then lines[p] == '\\' && lines[p + 1] == Letter(e[n]) else lines[p] == e[n]
    requires IsRest(Unescaped(d, lines, p', q), e, n + 1)
    ensures IsRest(Unescaped(d, lines, p, q), e, n)
  {
    UnescapedOne(d, lines, p, e[n], p', q);
    Prepended(Unescaped(d, lines, p, q), Unescaped(d, lines, p', q), e, n);
  }

  lemma Prepended(u: string, u': string, e: string, n: nat)
    requires n < |e| && IsRest(u', e, n + 1) && u == [e[n]] + u'
    ensures IsRest(u, e, n)
  {
  }

  lemma {:induction false} PlainValue(d: Decoder, lines: string, p: nat, q: nat)
    requires Complete(lines) && p <= q <= |lines| && forall k :: p <= k < q ==> lines[k] != '\\'
    ensures Unescaped(d, lines, p, q) == lines[p..q]
    decreases q - p
  {
    if p < q {
      PlainValue(d, lines, p + 1, q);
      assert lines[p..q] == [lines[p]] + lines[p + 1..q];
    }
  }

  lemma {:induction false} PlainAt(lines: string, p: nat, e: string, style: Style)
    requires At(lines, p, e) && Plain(e, style)
    ensures forall k :: p <= k < p + |e| ==> lines[k] != '\\' && (style.Braced? || !Ends(lines[k], style))
  {
    SliceAt(lines, p, e);
    forall k | p <= k < p + |e| ensures lines[k] == e[k - p] {
      assert lines[p..p + |e|][k - p] == e[k - p];
    }
  }

  lemma {:induction false} SliceAt(lines: string, p: nat, e: string)
    requires At(lines, p, e)
    ensures lines[p..p + |e|] == e
  {
    SameIff(lines, p, e, |e|);
  }

  lemma {:induction false} InsideScan(d: Decoder, lines: string, c: Cursor, e: string, form: Form, q: nat)
    requires Unescapes(d) && CanWrite(e, form) && InLine(lines, c, Read(form)) && c.depth == Depth(Read(form))
    requires At(lines, c.at, Inside(e, form)) && q == c.at + |Inside(e, form)| < |lines| && Ends(lines[q], Read(form))
    ensures Scan(d, lines, c, Read(form)) == Some(On(lines, q, c.depth))
  {
    if form.Escaped? || form.EscapedInQuotes? {
      AtEncodes(lines, c.at, e, 0, c.at, q);
      EscapedScan(d, lines, e, 0, c, Read(form), q);
    } else if form.EscapedInBraces? {
      var u :| e == Escape(u);
      AtEncodes(lines, c.at, u, 0, c.at, q);
      EscapedScan(d, lines, u, 0, c, Braced, q);
    } else {
      PlainAt(lines, c.at, e, Read(form));
      if form.InBraces? {
        BalancedInside(lines, c.at, e);
        BracedScan(d, lines, c.at, c, q);
      } else {
        PlainScan(d, lines, c, Read(form), q);
      }
    }
  }

  lemma {:induction false} InsideValue(d: Decoder, lines: string, p: nat, e: string, form: Form, q: nat)
    requires Unescapes(d) && CanWrite(e, form) && Complete(lines)
    requires At(lines, p, Inside(e, form)) && q == p + |Inside(e, form)| < |lines|
    ensures Value(d, lines, p, q, Read(form)) == e
  {
    if form.Escaped? || form.EscapedInQuotes? {
      AtEncodes(lines, p, e, 0, p, q);
      EscapedValue(d, lines, e, 0, p, q);
      assert Unescaped(d, lines, p, q) == e;
    } else {
      SliceAt(lines, p, e);
      if Read(form) != Braced {
        PlainAt(lines, p, e, Read(form));
        PlainValue(d, lines, p, q);
      }
    }
  }

  /** Where the inside of a written value is. */
  lemma {:induction false} WrittenInside(lines: string, i: nat, e: string, form: Form) returns (from: nat, q: nat)
    requires CanWrite(e, form) && At(lines, i, Written(e, form))
    ensures i < |lines| && !IsSpace(lines[i]) && StyleOf(lines[i]) == Read(form)
    ensures from == (if Read(form).Bare? then i else i + 1) && q == from + |Inside(e, form)|
    ensures i + |Written(e, form)| == if Read(form).Bare? then q else q + 1
    ensures At(lines, from, Inside(e, form)) && (!Read(form).Bare? ==> Ends(lines[q], Read(form)))
  {
    from := if Read(form).Bare? then i else i + 1;
    q := from + |Inside(e, form)|;
    if !Read(form).Bare? {
      DelimitedInside(lines, i, e, form);
    } else if form.Escaped? {
      EscapedAt(lines, i, e, 0, i);
    } else {
      AtFirst(lines, i, e);
    }
  }

  lemma {:induction false} DelimitedInside(lines: string, i: nat, e: string, form: Form)
    requires !Read(form).Bare?
    requires At(lines, i, Written(e, form))
    ensures var n := |Inside(e, form)|;
            && |Written(e, form)| == n + 2 && At(lines, i + 1, Inside(e, form))
            && lines[i] == (if Read(form).Braced? then '{' else '"')
            && lines[i + 1 + n] == (if Read(form).Braced? then '}' else '"')
  {
    var u, braced := Inside(e, form), Read(form).Braced?;
    var open, close := if braced then "{" else "\"", if braced then "}" else "\"";
    assert Written(e, form) == (open + u) + close;
    AtParts(lines, i, open + u, close);
    AtFirst(lines, i + |open + u|, close);
    AtParts(lines, i, open, u);
    AtFirst(lines, i, open);
  }

  /** The scan of an element whose inside is written from from to q. */
  lemma {:induction false} ScanInside(d: Decoder, lines: string, i: nat, e: string, form: Form, from: nat, q: nat)
    requires Unescapes(d) && Complete(lines) && i < |lines| && !IsSpace(lines[i]) && StyleOf(lines[i]) == Read(form)
    requires from == if Read(form).Bare? then i else i + 1
    requires CanWrite(e, form) && At(lines, from, Inside(e, form)) && q == from + |Inside(e, form)| < |lines|
    requires Ends(lines[q], Read(form))
    ensures Scan(d, lines, Start(lines, i, LineEnd(lines, i)), Read(form)) == Some(On(lines, q, Depth(Read(form))))
  {
    InsideScan(d, lines, Cursor(from, LineEnd(lines, i), Depth(Read(form))), e, form, q);
  }

  /** From past to n there is white space, but no newline. */
  ghost predicate GapTo(lines: string, past: nat, n: nat) {
    past <= n < |lines| && forall k :: past <= k < n ==> White(lines[k]) && lines[k] != '\n'
  }

  /** The next element starts at n, or the list ends with the newline there. */
  function NextAt(lines: string, n: nat): nat
    requires n < |lines|
  {
    if lines[n] == '\n' then n + 1 else n
  }

  lemma {:induction false} SkipGap(lines: string, past: nat, n: nat)
    requires Complete(lines) && GapTo(lines, past, n) && (lines[n] == '\n' || !IsSpace(lines[n]))
    ensures LineEnd(lines, past) == LineEnd(lines, n)
    ensures SkipSpace(lines, past, LineEnd(lines, n)) == NextAt(lines, n)
    decreases n - past
  {
    if past < n {
      SkipGap(lines, past + 1, n);
    } else if lines[n] == '\n' {
      assert SkipSpace(lines, n + 1, n + 1) == n + 1;
    }
  }

  /** The cursor has reached the closing brace or quote, or the white space behind the element. */
  lemma {:induction false} CloseItem(lines: string, v: string, style: Style, past: nat, n: nat)
    requires Complete(lines) && past < |lines| && (style.Bare? || past > 0)
    requires GapTo(lines, past, n) && (lines[n] == '\n' || (past < n && !IsSpace(lines[n])))
    requires !style.Bare? ==> Ends(lines[past - 1], style)
    ensures var q := if style.Bare? then past else past - 1;
            Close(lines, v, On(lines, q, Depth(style)), style) == Item(v, NextAt(lines, n), LineEnd(lines, n))
  {
    assert !style.Bare? ==> LineEnd(lines, past - 1) == LineEnd(lines, past);
    SkipGap(lines, past, n);
    assert IsSpace(lines[past]);
  }

  lemma {:induction false} InsideElement(d: Decoder, lines: string, i: nat, e: string, form: Form, from: nat, q: nat)
    requires Unescapes(d) && Complete(lines) && i < |lines| && !IsSpace(lines[i]) && StyleOf(lines[i]) == Read(form)
    requires from == if Read(form).Bare? then i else i + 1
    requires CanWrite(e, form) && At(lines, from, Inside(e, form)) && q == from + |Inside(e, form)| < |lines|
    requires Ends(lines[q], Read(form))
    ensures Element(d, lines, i, LineEnd(lines, i)) == Close(lines, e, On(lines, q, Depth(Read(form))), Read(form))
  {
    ScanInside(d, lines, i, e, form, from, q);
    InsideValue(d, lines, from, e, form, q);
  }

  lemma {:induction false} InsideItem(d: Decoder, lines: string, i: nat, e: string, form: Form, from: nat, q: nat,
                                      n: nat)
    requires Unescapes(d) && Complete(lines) && i < |lines| && !IsSpace(lines[i]) && StyleOf(lines[i]) == Read(form)
    requires from == if Read(form).Bare? then i else i + 1
    requires CanWrite(e, form) && At(lines, from, Inside(e, form)) && q == from + |Inside(e, form)| < |lines|
    requires Read(form).Bare? || Ends(lines[q], Read(form))
    requires var past := if Read(form).Bare? then q else q + 1;
             GapTo(lines, past, n) && (lines[n] == '\n' || (past < n && !IsSpace(lines[n])))
    ensures Element(d, lines, i, LineEnd(lines, i)) == Item(e, NextAt(lines, n), LineEnd(lines, n))
  {
    if Read(form).Bare? { assert IsSpace(lines[q]); }
    InsideElement(d, lines, i, e, form, from, q);
    CloseItem(lines, e, Read(form), if Read(form).Bare? then q else q + 1, n);
  }

  /** A written value, and white space before the next one or the end of the line. */
  lemma {:induction false} WrittenItem(d: Decoder, lines: string, i: nat, e: string, form: Form, past: nat, n: nat)
    requires Unescapes(d) && Complete(lines) && CanWrite(e, form) && At(lines, i, Written(e, form))
    requires past == i + |Written(e, form)| && GapTo(lines, past, n)
    requires lines[n] == '\n' || (past < n && !IsSpace(lines[n]))
    ensures i < |lines| && !IsSpace(lines[i])
    ensures Element(d, lines, i, LineEnd(lines, i)) == Item(e, NextAt(lines, n), LineEnd(lines, n))
  {
    var from, q := WrittenInside(lines, i, e, form);
    InsideItem(d, lines, i, e, form, from, q, n);
  }

  /** The parts of a written list: its first value, white space, and the rest. */
  lemma {:induction false} TextParts(lines: string, i: nat, items: Items, tail: string) returns (past: nat, n: nat)
    requires At(lines, i, items.Text(tail)) && tail != "" && items.Cons? && Gap(items.gap)
    ensures At(lines, i, Written(items.value, items.form)) && past == i + |Written(items.value, items.form)|
    ensures GapTo(lines, past, n) && (items.gap != "" <==> past < n) && At(lines, n, items.rest.Text(tail))
    ensures i + |items.Text(tail)| == n + |items.rest.Text(tail)|
  {
    var w, gap, rest := Written(items.value, items.form), items.gap, items.rest.Text(tail);
    past := i + |w|;
    n := past + |gap|;
    AtParts(lines, i, w, gap + rest);
    AtParts(lines, past, gap, rest);
    SameIff(lines, past, gap, |gap|);
    forall k | past <= k < n ensures lines[k] == gap[k - past] {
      assert lines[past + (k - past)] == gap[k - past];
    }
  }

  /** Where the items end: at the newline, or at a further element. */
  ghost predicate ItemsTo(lines: string, items: Items, p: nat) {
    p < |lines| && (lines[p] == '\n' || (items.Apart() && !IsSpace(lines[p])))
  }

  /** Reading on from the items, as far as p. */
  ghost predicate ReadTo(d: Decoder, lines: string, i: nat, items: Items, p: nat, eof: Outcome) {
    && Complete(lines) && i < |lines| && !IsSpace(lines[i])
    && p < |lines| && Starts(lines, NextAt(lines, p), LineEnd(lines, p))
    && Elements(d, lines, i, LineEnd(lines, i), eof) ==
       After(items.Values(), Elements(d, lines, NextAt(lines, p), LineEnd(lines, p), eof))
  }

  lemma {:induction false} ReadsItems(d: Decoder, lines: string, i: nat, items: Items, tail: string, p: nat,
                                      eof: Outcome)
    requires Unescapes(d) && Complete(lines) && At(lines, i, items.Text(tail)) && tail != ""
    requires items.Cons? && items.Writable() && p == i + |items.Text(tail)| - |tail| && ItemsTo(lines, items, p)
    ensures ReadTo(d, lines, i, items, p, eof)
    decreases items
  {
    var past, n := TextParts(lines, i, items, tail);
    if items.rest.Cons? {
      ReadsItems(d, lines, n, items.rest, tail, p, eof);
      WrittenItem(d, lines, i, items.value, items.form, past, n);
      ReadToCons(d, lines, i, items, n, p, eof);
    } else {
      WrittenItem(d, lines, i, items.value, items.form, past, n);
      ReadToLast(d, lines, i, items, p, eof);
    }
  }

  lemma {:induction false} ReadToLast(d: Decoder, lines: string, i: nat, items: Items, p: nat, eof: Outcome)
    requires Complete(lines) && items.Cons? && items.rest.End? && i < |lines| && !IsSpace(lines[i]) && p < |lines|
    requires Element(d, lines, i, LineEnd(lines, i)) == Item(items.value, NextAt(lines, p), LineEnd(lines, p))
    ensures ReadTo(d, lines, i, items, p, eof)
  {
    assert items.Values() == [items.value];
  }

  lemma {:induction false} ReadToCons(d: Decoder, lines: string, i: nat, items: Items, n: nat, p: nat, eof: Outcome)
    requires Complete(lines) && items.Cons? && i < |lines| && !IsSpace(lines[i]) && n < |lines|
    requires ReadTo(d, lines, n, items.rest, p, eof)
    requires Element(d, lines, i, LineEnd(lines, i)) == Item(items.value, NextAt(lines, n), LineEnd(lines, n))
    ensures ReadTo(d, lines, i, items, p, eof)
  {
    AfterOne(items.value, items.rest.Values(), Elements(d, lines, NextAt(lines, p), LineEnd(lines, p), eof));
  }

  lemma AfterOne(v: string, es: seq<string>, rest: Outcome)
    ensures After([v], After(es, rest)) == After([v] + es, rest)
  {
    if rest.List? { assert [v] + (es + rest.elems) == ([v] + es) + rest.elems; }
  }

  lemma {:induction false} LinesReach(text: string, n: nat, end: nat)
    requires 0 < end <= n <= |text| && text[end - 1] == '\n'
    ensures LinesEnd(text, n) >= end
  {
    if n > end { LinesReach(text, n - 1, end); }
  }

  /** A text that ends its line is among the complete lines. */
  lemma {:induction false} PrefixAt(w: string, text: string)
    requires w != "" && w[|w| - 1] == '\n' && w <= text
    ensures var lines := Lines(text); |lines| >= |w| && At(lines, 0, w)
  {
    LinesReach(text, |text|, |w|);
    SameIff(Lines(text), 0, w, |w|);
  }

  /** White space before the first element is passed. */
  lemma {:induction false} FirstIs(lines: string, lead: string, i: nat)
    requires Complete(lines) && lines != "" && At(lines, 0, lead) && Gap(lead) && i == |lead| < |lines|
    requires lines[i] == '\n' || !IsSpace(lines[i])
    ensures First(lines) == NextAt(lines, i) && LineEnd(lines, 0) == LineEnd(lines, i)
  {
    SameIff(lines, 0, lead, |lead|);
    forall k | 0 <= k < i ensures White(lines[k]) && lines[k] != '\n' { assert lines[0 + k] == lead[k]; }
    SkipGap(lines, 0, i);
  }

  /** What lgets makes of items is what it makes of the text behind them. */
  lemma {:induction false} ReadsOn(d: Decoder, text: string, lead: string, items: Items, tail: string, p: nat)
    requires Unescapes(d) && items.Writable() && Gap(lead) && tail != ""
    requires At(Lines(text), 0, lead + items.Text(tail)) && p == |lead| + |items.Text(tail)| - |tail|
    requires ItemsTo(Lines(text), items, p)
    ensures var lines := Lines(text);
            && Starts(lines, NextAt(lines, p), LineEnd(lines, p))
            && ReadList(d, text) ==
               After(items.Values(),
                     Elements(d, lines, NextAt(lines, p), LineEnd(lines, p), Bad(Truncated(text), |text|)))
  {
    var lines, i, eof := Lines(text), |lead|, Bad(Truncated(text), |text|);
    AtParts(lines, 0, lead, items.Text(tail));
    if items.Cons? {
      ReadsItems(d, lines, i, items, tail, p, eof);
      FirstIs(lines, lead, i);
    } else {
      FirstIs(lines, lead, i);
      AfterNil(Elements(d, lines, NextAt(lines, p), LineEnd(lines, p), eof));
    }
  }

  lemma AfterNil(rest: Outcome)
    ensures After([], rest) == rest
  {
    if rest.List? { assert [] + rest.elems == rest.elems; }
  }

  /** A written list reads back as its values, whatever white space is around them and whatever follows
      it on the channel, and exactly its own lines are read. */
  lemma {:induction false} RoundTrip(d: Decoder, lead: string, items: Items, rest: string)
    requires Gap(lead) && items.Writable() && Unescapes(d)
    ensures ReadList(d, lead + items.Text("\n") + rest) == List(items.Values(), |lead| + |items.Text("\n")|)
  {
    var w := lead + items.Text("\n");
    LineEnds(lead, items, "\n");
    ReadsLines(d, w + rest, lead, items, w);
  }

  lemma {:induction false} ReadsLines(d: Decoder, text: string, lead: string, items: Items, w: string)
    requires Gap(lead) && items.Writable() && Unescapes(d)
    requires w == lead + items.Text("\n") && w <= text && w != "" && w[|w| - 1] == '\n'
    ensures ReadList(d, text) == List(items.Values(), |w|)
  {
    PrefixAt(w, text);
    AtLast(Lines(text), w);
    ReadsOn(d, text, lead, items, "\n", |w| - 1);
    AfterNone(d, items.Values(), Lines(text), |w|, Bad(Truncated(text), |text|));
  }

  lemma LineEnds(lead: string, items: Items, tail: string)
    requires tail != ""
    ensures var w := lead + items.Text(tail); w != "" && w[|w| - 1] == tail[|tail| - 1]
  {
    TextEnds(items, tail);
  }

  lemma {:induction false} AtLast(lines: string, w: string)
    requires At(lines, 0, w) && w != ""
    ensures lines[|w| - 1] == w[|w| - 1]
  {
    SameIff(lines, 0, w, |w|);
    assert lines[0 + (|w| - 1)] == w[|w| - 1];
  }

  lemma LastOf(a: string, b: string, c: string)
    requires c != ""
    ensures a + (b + c) != "" && (a + (b + c))[|a + (b + c)| - 1] == c[|c| - 1]
  {
  }

  /** The list ends as what follows it does. */
  lemma {:induction false} TextEnds(items: Items, tail: string)
    requires tail != ""
    ensures items.Text(tail) != "" && items.Text(tail)[|items.Text(tail)| - 1] == tail[|tail| - 1]
  {
    if items.Cons? {
      TextEnds(items.rest, tail);
      LastOf(Written(items.value, items.form), items.gap, items.rest.Text(tail));
    }
  }

  /** Every list of values has a written form. */
  function Safest(values: seq<string>): (items: Items)
    ensures items.Writable() && items.Values() == values
  {
    if values == [] then End
    else Cons(values[0], if values[0] == "" then InBraces else Escaped, " ", Safest(values[1..]))
  }

  /** Any list of values can be written so that lgets reads it back. */
  lemma {:induction false} AnyListReadsBack(d: Decoder, values: seq<string>, rest: string)
    requires Unescapes(d)
    ensures var w := Safest(values).Text("\n"); ReadList(d, w + rest) == List(values, |w|)
  {
    RoundTrip(d, "", Safest(values), rest);
    assert "" + Safest(values).Text("\n") == Safest(values).Text("\n");
  }

  // ---------------------------------------------------------------- malformed lists

  /** The line of q ends at end. */
  ghost predicate FirstNewline(lines: string, q: nat, end: nat) {
    q < end <= |lines| && lines[end - 1] == '\n' && forall j :: q <= j < end - 1 ==> lines[j] != '\n'
  }

  /** An element in braces or quotes with text right behind it. */
  lemma {:induction false} ElementGarbage(d: Decoder, lines: string, i: nat, e: string, form: Form, q: nat, end: nat)
    requires Unescapes(d) && Complete(lines) && CanWrite(e, form) && !Read(form).Bare?
    requires At(lines, i, Written(e, form)) && q == i + |Inside(e, form)| + 2
    requires FirstNewline(lines, q, end) && !White(lines[q])
    ensures i < |lines| && !IsSpace(lines[i])
    ensures Element(d, lines, i, LineEnd(lines, i)) ==
            Garbage(if Read(form).Braced? then GarbageAfterBrace else GarbageAfterQuote, end)
  {
    DelimitedInside(lines, i, e, form);
    InsideElement(d, lines, i, e, form, i + 1, q - 1);
    LineEndIs(lines, q, end);
    CloseGarbage(lines, e, Read(form), q);
  }

  lemma {:induction false} CloseGarbage(lines: string, v: string, style: Style, q: nat)
    requires Complete(lines) && 0 < q < |lines| && !White(lines[q]) && !style.Bare? && Ends(lines[q - 1], style)
    ensures Close(lines, v, On(lines, q - 1, Depth(style)), style) ==
            Garbage(if style.Braced? then GarbageAfterBrace else GarbageAfterQuote, LineEnd(lines, q))
  {
    assert LineEnd(lines, q - 1) == LineEnd(lines, q);
  }

  /** The elements before it do not matter, nor what follows its line. */
  lemma {:induction false} GarbageAt(d: Decoder, text: string, lead: string, items: Items, e: string, form: Form,
                                     tail: string, p: nat, end: nat)
    requires Unescapes(d) && items.Writable() && items.Apart() && Gap(lead) && CanWrite(e, form)
    requires !Read(form).Bare?
    requires tail != "" && p == |lead| + |items.Text(tail)| - |tail|
    requires At(Lines(text), 0, lead + items.Text(tail)) && At(Lines(text), p, Written(e, form))
    requires var q := p + |Inside(e, form)| + 2; FirstNewline(Lines(text), q, end) && !White(Lines(text)[q])
    ensures ReadList(d, text) == Bad(if Read(form).Braced? then GarbageAfterBrace else GarbageAfterQuote, end)
  {
    var lines := Lines(text);
    ElementGarbage(d, lines, p, e, form, p + |Inside(e, form)| + 2, end);
    ReadsOn(d, text, lead, items, tail, p);
  }

  /** What follows the items stands behind them. */
  lemma {:induction false} TailAt(lines: string, lead: string, items: Items, tail: string, p: nat)
    requires At(lines, 0, lead + items.Text(tail)) && p == |lead| + |items.Text(tail)| - |tail|
    requires tail != "" && items.Writable()
    ensures At(lines, p, tail)
  {
    AtParts(lines, 0, lead, items.Text(tail));
    TailOf(lines, |lead|, items, tail, p);
  }

  lemma {:induction false} TailOf(lines: string, i: nat, items: Items, tail: string, p: nat)
    requires At(lines, i, items.Text(tail)) && p == i + |items.Text(tail)| - |tail| && tail != "" && items.Writable()
    ensures At(lines, p, tail)
    decreases items
  {
    if items.Cons? {
      var past, n := TextParts(lines, i, items, tail);
      TailOf(lines, n, items.rest, tail, p);
    }
  }

  /** Behind the closing brace or quote of an element there is a character that is not white space:
      lgets fails with that error, having read exactly the line it is on. */
  lemma {:induction false} GarbageFails(d: Decoder, lead: string, items: Items, e: string, form: Form, c: char,
                                        line: string, rest: string)
    requires Unescapes(d) && Gap(lead) && items.Writable() && items.Apart() && CanWrite(e, form) && !Read(form).Bare?
    requires !White(c) && '\n' !in line
    ensures var element := if Read(form).Braced? then "{" + e + "}" else "\"" + Inside(e, form) + "\"";
            var before := lead + items.Text(element + [c] + line + "\n");
            ReadList(d, before + rest) ==
            Bad(if Read(form).Braced? then GarbageAfterBrace else GarbageAfterQuote, |before|)
  {
    GarbageBehind(d, lead, items, e, form, c, line, rest);
  }

  lemma {:induction false} GarbageBehind(d: Decoder, lead: string, items: Items, e: string, form: Form, c: char,
                                         line: string, rest: string)
    requires Unescapes(d) && Gap(lead) && items.Writable() && items.Apart() && CanWrite(e, form)
    requires !Read(form).Bare? && !White(c) && '\n' !in line
    ensures var before := lead + items.Text(Written(e, form) + [c] + line + "\n");
            ReadList(d, before + rest) ==
            Bad(if Read(form).Braced? then GarbageAfterBrace else GarbageAfterQuote, |before|)
  {
    var tail := Written(e, form) + [c] + line + "\n";
    var w := lead + items.Text(tail);
    EndsWith(Written(e, form) + [c] + line, "\n");
    var p := TailInLines(w + rest, lead, items, tail, w);
    GarbageLine(d, w + rest, lead, items, e, form, c, line, tail, w, p);
  }

  lemma EndsWith(a: string, b: string)
    requires |b| == 1
    ensures |a + b| == |a| + 1 && (a + b)[|a + b| - 1] == b[0]
  {
  }

  /** A list stands in the complete lines of a channel if what follows its items ends a line. */
  lemma {:induction false} TailInLines(text: string, lead: string, items: Items, tail: string, w: string)
    returns (p: nat)
    requires items.Writable() && tail != "" && tail[|tail| - 1] == '\n' && w == lead + items.Text(tail) && w <= text
    ensures p + |tail| == |w| && At(Lines(text), 0, w) && At(Lines(text), p, tail)
  {
    LineEnds(lead, items, tail);
    PrefixAt(w, text);
    p := |w| - |tail|;
    TailAt(Lines(text), lead, items, tail, p);
  }

  lemma {:induction false} GarbageLine(d: Decoder, text: string, lead: string, items: Items, e: string, form: Form,
                                       c: char, line: string, tail: string, w: string, p: nat)
    requires Unescapes(d) && Gap(lead) && items.Writable() && items.Apart() && CanWrite(e, form)
    requires !Read(form).Bare? && !White(c) && '\n' !in line
    requires tail == Written(e, form) + [c] + line + "\n" && w == lead + items.Text(tail) && p + |tail| == |w|
    requires At(Lines(text), 0, w) && At(Lines(text), p, tail)
    ensures ReadList(d, text) == Bad(if Read(form).Braced? then GarbageAfterBrace else GarbageAfterQuote, |w|)
  {
    GarbageTail(Lines(text), p, e, form, c, line);
    GarbageAt(d, text, lead, items, e, form, tail, p, p + |tail|);
  }

  lemma {:induction false} GarbageTail(lines: string, p: nat, e: string, form: Form, c: char, line: string)
    requires At(lines, p, Written(e, form) + [c] + line + "\n") && !White(c) && '\n' !in line
    requires !Read(form).Bare?
    ensures At(lines, p, Written(e, form)) && |Written(e, form) + [c] + line + "\n"| == |Inside(e, form)| + |line| + 4
    ensures var q, end := p + |Inside(e, form)| + 2, p + |Inside(e, form)| + |line| + 4;
            FirstNewline(lines, q, end) && lines[q] == c
  {
    var w, u := Written(e, form), [c] + line + "\n";
    assert w + [c] + line + "\n" == w + u;
    AtParts(lines, p, w, u);
    UpToNewline(lines, p + |w|, c, line);
  }

  lemma {:induction false} UpToNewline(lines: string, q: nat, c: char, line: string)
    requires At(lines, q, [c] + line + "\n") && !White(c) && '\n' !in line
    ensures var end := q + |line| + 2;
            FirstNewline(lines, q, end) && lines[q] == c
  {
    var u := [c] + line + "\n";
    SameIff(lines, q, u, |u|);
    forall j | q <= j < q + |u| ensures lines[j] == u[j - q] { assert lines[q + (j - q)] == u[j - q]; }
  }

  /** No brace closes the first one, or no quote ends the element. */
  ghost predicate StaysOpen(e: string, style: Style) {
    match style
    case Braced => '\\' !in e && forall n :: 0 <= n <= |e| ==> Nesting(e, n) >= 0
    case Quoted => '\\' !in e && '"' !in e
    case Bare => false
  }

  /** The scan of an element that stays open to the end of the lines. */
  lemma {:induction false} OpenScan(d: Decoder, lines: string, from: nat, c: Cursor, style: Style)
    requires CursorOk(lines, c, style) && from <= c.at && !style.Bare?
    requires style.Braced? ==> c.depth == 1 + Nesting(lines, c.at) - Nesting(lines, from)
    requires forall k :: from <= k < |lines| ==> lines[k] != '\\' && (style.Quoted? ==> lines[k] != '"')
    requires style.Braced? ==> forall k :: from <= k <= |lines| ==> Nesting(lines, k) >= Nesting(lines, from)
    ensures Scan(d, lines, c, style) == None
    decreases |lines| - c.at, |lines| - c.limit
  {
    if c.at < c.limit {
      assert style.Braced? ==> Nesting(lines, c.at + 1) >= Nesting(lines, from);
      assert c.at + 1 < c.limit ==> LineEnd(lines, c.at + 1) == c.limit;
      var next := Cursor(c.at + 1, c.limit, Deeper(lines[c.at], style, c.depth));
      assert Turn(d, lines, c, style) == Go(next);
      OpenScan(d, lines, from, next, style);
    } else if c.limit < |lines| {
      OpenScan(d, lines, from, Cursor(c.at, LineEnd(lines, c.limit), c.depth), style);
    }
  }

  /** An element that is still open at the end of the complete lines: lgets reads all there is and
      fails, with one error if the channel ends with those lines and with another if the start of a
      line follows them. */
  lemma {:induction false} OpenAtEnd(d: Decoder, lead: string, items: Items, e: string, style: Style, part: string)
    requires Unescapes(d) && Gap(lead) && items.Writable() && items.Apart() && StaysOpen(e, style) && '\n' !in part
    ensures var open := if style.Braced? then "{" else "\"";
            var text := lead + items.Text(open + e + "\n") + part;
            ReadList(d, text) == Bad(if part == "" then EofInElement else EofBeforeNewline, |text|)
  {
    var open := if style.Braced? then "{" else "\"";
    var tail := open + e + "\n";
    var w := lead + items.Text(tail);
    LineEnds(lead, items, tail);
    LinesThen(w, part);
    OpenLine(d, w + part, lead, items, e, style, open, tail, |w| - |tail|);
  }

  lemma {:induction false} OpenLine(d: Decoder, text: string, lead: string, items: Items, e: string, style: Style,
                                    open: string, tail: string, p: nat)
    requires Unescapes(d) && Gap(lead) && items.Writable() && items.Apart() && StaysOpen(e, style)
    requires open == (if style.Braced? then "{" else "\"") && tail == open + e + "\n"
    requires p == |lead| + |items.Text(tail)| - |tail| && p + |tail| == |Lines(text)|
    requires At(Lines(text), 0, lead + items.Text(tail))
    ensures ReadList(d, text) == Bad(Truncated(text), |text|)
  {
    TailAt(Lines(text), lead, items, tail, p);
    OpenTail(Lines(text), p, open, e);
    OpenElement(d, Lines(text), p, e, style);
    ReadsOn(d, text, lead, items, tail, p);
  }

  lemma {:induction false} OpenTail(lines: string, p: nat, open: string, e: string)
    requires At(lines, p, open + e + "\n") && |open| == 1
    ensures p + |e| + 2 <= |lines| && lines[p] == open[0] && At(lines, p + 1, e + "\n")
  {
    assert open + e + "\n" == open + (e + "\n");
    AtParts(lines, p, open, e + "\n");
    AtFirst(lines, p, open);
  }

  lemma {:induction false} OpenElement(d: Decoder, lines: string, p: nat, e: string, style: Style)
    requires Complete(lines) && StaysOpen(e, style) && p + |e| + 2 == |lines| && At(lines, p + 1, e + "\n")
    requires lines[p] == if style.Braced? then '{' else '"'
    ensures Element(d, lines, p, LineEnd(lines, p)) == OutOfLines
  {
    var from := p + 1;
    AtParts(lines, from, e, "\n");
    AtFirst(lines, from + |e|, "\n");
    SameIff(lines, from, e, |e|);
    forall k | from <= k < from + |e| ensures lines[k] == e[k - from] {
      assert lines[from + (k - from)] == e[k - from];
    }
    if style.Braced? {
      forall k | from <= k <= |lines| ensures Nesting(lines, k) >= Nesting(lines, from) {
        NestingInside(lines, from, e, if k < |lines| then k - from else |e|);
      }
    }
    OpenScan(d, lines, from, Start(lines, p, LineEnd(lines, p)), style);
  }

  /** The complete lines of a text whose last newline is known. */
  lemma {:induction false} LinesThen(w: string, part: string)
    requires w != "" && w[|w| - 1] == '\n' && '\n' !in part
    ensures Lines(w + part) == w && At(w, 0, w)
    ensures Truncated(w + part) == if part == "" then EofInElement else EofBeforeNewline
  {
    SameIff(w, 0, w, |w|);
    LinesAre(w, w + part);
    assert part == "" ==> w + part == w;
    assert part != "" ==> (w + part)[|w + part| - 1] == part[|part| - 1];
  }

  /** A channel that holds no newline at all fails too, or is at its end. */
  lemma {:induction false} NoLineAtAll(d: Decoder, text: string)
    requires '\n' !in text
    ensures ReadList(d, text) == if text == "" then Eof else Bad(EofBeforeNewline, |text|)
  {
    LinesAre("", text);
  }

  lemma {:induction false} NestingFirst(a: string, b: string, n: nat)
    requires n <= |a|
    ensures Nesting(a + b, n) == Nesting(a, n)
  {
    if n > 0 { NestingFirst(a, b, n - 1); }
  }

  lemma {:induction false} NestingSecond(a: string, b: string, n: nat)
    requires n <= |b|
    ensures Nesting(a + b, |a| + n) == Nesting(a, |a|) + Nesting(b, n)
  {
    if n > 0 {
      NestingSecond(a, b, n - 1);
      assert (a + b)[|a| + n - 1] == b[n - 1];
    } else {
      NestingFirst(a, b, |a|);
    }
  }

  lemma {:induction false} BalancedAppend(a: string, b: string)
    requires Balanced(a) && Balanced(b)
    ensures Balanced(a + b)
  {
    NestingSecond(a, b, |b|);
    forall n | 0 <= n <= |a + b| ensures Nesting(a + b, n) >= 0 {
      if n <= |a| { NestingFirst(a, b, n); } else { NestingSecond(a, b, n - |a|); }
    }
  }

  lemma {:induction false} BalancedBetween(b: string)
    requires Balanced(b)
    ensures Balanced("{" + b + "}")
  {
    var w := "{" + b + "}";
    assert Nesting("{", 0) == 0 && Nesting("{", 1) == 1;
    forall n | 0 <= n <= |b| ensures Nesting(w, 1 + n) == 1 + Nesting(b, n) {
      NestingSecond("{", b, n);
      NestingFirst("{" + b, "}", 1 + n);
    }
    assert w[|w| - 1] == '}' && |w| == |b| + 2;
    forall n | 0 <= n <= |w| ensures Nesting(w, n) >= 0 {
      if 0 < n < |w| { assert Nesting(w, 1 + (n - 1)) == 1 + Nesting(b, n - 1); }
    }
  }

  lemma {:induction false} BalancedPlain(c: string)
    requires '{' !in c && '}' !in c
    ensures Balanced(c)
  {
    forall n | 0 <= n <= |c| ensures Nesting(c, n) == 0 { NoNesting(c, n); }
  }

  lemma {:induction false} NoNesting(c: string, n: nat)
    requires n <= |c| && '{' !in c && '}' !in c
    ensures Nesting(c, n) == 0
  {
    if n > 0 { NoNesting(c, n - 1); }
  }

  /** What can stand in braces: any text without braces and backslashes, and further texts in braces. */
  lemma {:induction false} BracesNest(a: string, b: string, c: string)
    requires CanWrite(a, InBraces) && CanWrite(b, InBraces) && '\\' !in c && '{' !in c && '}' !in c
    ensures forall w <- [c, a + b, "{" + b + "}"] :: CanWrite(w, InBraces)
  {
    BalancedPlain(c);
    BalancedAppend(a, b);
    BalancedBetween(b);
  }

  // ---------------------------------------------------------------- which newlines end the list

  /** The element is still open at the end of the line: the newline belongs to it, in braces, in
      quotes or as the end of a backslash sequence. */
  ghost predicate TakesNewline(d: Decoder, lines: string, c: Cursor, style: Style)
    requires CursorOk(lines, c, style)
    decreases c.limit - c.at
  {
    c.at == c.limit ||
    (Turn(d, lines, c, style).Go? && TakesNewline(d, lines, Turn(d, lines, c, style).cursor, style))
  }

  /** The scan ends in the line it is in exactly when the element does not take the newline, or when
      it has neither braces nor quotes. */
  lemma {:induction false} StaysOnLineIff(d: Decoder, lines: string, c: Cursor, style: Style)
    requires CursorOk(lines, c, style)
    ensures var end := Scan(d, lines, c, style);
            end.Some? && end.value.limit == c.limit <==> style.Bare? || !TakesNewline(d, lines, c, style)
    ensures style.Bare? && TakesNewline(d, lines, c, style) ==> Scan(d, lines, c, style).value.at == c.limit
    decreases c.limit - c.at
  {
    if c.at < c.limit && Turn(d, lines, c, style).Go? {
      StaysOnLineIff(d, lines, Turn(d, lines, c, style).cursor, style);
    }
  }

  /** Without braces or quotes only a backslash sequence takes the newline. */
  lemma {:induction false} BareTakesByBackslash(d: Decoder, lines: string, c: Cursor)
    requires CursorOk(lines, c, Bare) && c.at < c.limit
    requires forall k :: c.at <= k < c.limit ==> lines[k] != '\\'
    ensures !TakesNewline(d, lines, c, Bare)
    decreases c.limit - c.at
  {
    if !IsSpace(lines[c.at]) { BareTakesByBackslash(d, lines, Cursor(c.at + 1, c.limit, 0)); }
  }

  /** The manual promises that only a newline that is not quoted ends the list. When an element takes
      the newline of its line, the list goes on to further lines exactly when the element is in
      braces or quotes; otherwise it ends there, and what the backslash sequence stands for is at the
      end of its last element. An element that does not take the newline never needs another line. */
  lemma {:induction false} TakenNewlineGoesOnIff(d: Decoder, lines: string, i: nat, limit: nat, eof: Outcome)
    requires Starts(lines, i, limit) && i < limit
    ensures var style, item := StyleOf(lines[i]), Element(d, lines, i, limit);
            && (item.OutOfLines? || item.limit > limit <==>
                !style.Bare? && TakesNewline(d, lines, Start(lines, i, limit), style))
            && (style.Bare? && TakesNewline(d, lines, Start(lines, i, limit), style) ==>
                item == Item(Unescaped(d, lines, i, limit), limit, limit) &&
                Elements(d, lines, i, limit, eof) == List([Unescaped(d, lines, i, limit)], limit))
  {
    StaysOnLineIff(d, lines, Start(lines, i, limit), StyleOf(lines[i]));
  }

  /** The smallest such list: the manual's promise fails for the second line. */
  lemma {:induction false} ContinuationEndsList(d: Decoder)
    requires d("a\\\n", 1) == (' ', 2)
    ensures ReadList(d, "a\\\nb\n") == List(["a "], 3)
  {
    var text := "a\\\nb\n";
    assert LinesEnd(text, 5) == 5;
    var lines := Lines(text);
    assert lines == text;
    assert LineEnd(lines, 0) == LineEnd(lines, 1) == LineEnd(lines, 2) == 3;
    assert lines[..3] == "a\\\n";
    assert Turn(d, lines, Cursor(0, 3, 0), Bare) == Go(Cursor(1, 3, 0));
    assert Turn(d, lines, Cursor(1, 3, 0), Bare) == Go(Cursor(3, 3, 0));
    assert Scan(d, lines, Cursor(1, 3, 0), Bare) == Some(Cursor(3, 3, 0));
    assert Unescaped(d, lines, 1, 3) == " ";
    assert Element(d, lines, 0, 3) == Item("a ", 3, 3);
  }

  // ---------------------------------------------------------------- the reader

  /** What a turn adds to the value of the element. */
  function Piece(d: Decoder, lines: string, c: Cursor, style: Style): string
    requires Complete(lines) && c.at < |lines|
  {
    if lines[c.at] != '\\' then [lines[c.at]]
    else
      var (ch, n) := Sequence(d, lines, c.at);
      if style.Braced? then lines[c.at..c.at + n] else [ch]
  }

  /** The scan that is to stop at end has come to c; whole is the value of the element, and acc what
      there is of it before c. */
  ghost predicate Progress(d: Decoder, lines: string, style: Style, end: Option<Cursor>, whole: string, c: Cursor,
                           acc: string) {
    && CursorOk(lines, c, style) && Scan(d, lines, c, style) == end
    && (end.Some? ==> whole == acc + Value(d, lines, c.at, end.value.at, style))
  }

  lemma {:induction false} ValueStep(d: Decoder, lines: string, c: Cursor, style: Style, c': Cursor, to: nat)
    requires CursorOk(lines, c, style) && c.at < c.limit && Turn(d, lines, c, style) == Go(c') && c'.at <= to <= |lines|
    ensures Value(d, lines, c.at, to, style) == Piece(d, lines, c, style) + Value(d, lines, c'.at, to, style)
  {
    if style.Braced? {
      SplitSlice(lines, c.at, c'.at, to);
    } else {
      UnescapedStep(d, lines, c.at, to);
    }
  }

  lemma SplitSlice(lines: string, p: nat, q: nat, to: nat)
    requires p <= q <= to <= |lines|
    ensures lines[p..to] == lines[p..q] + lines[q..to]
    ensures q == p + 1 ==> lines[p..q] == [lines[p]]
  {
  }

  lemma {:induction false} UnescapedStep(d: Decoder, lines: string, p: nat, to: nat)
    requires Complete(lines) && p < to <= |lines|
    ensures lines[p] == '\\' ==>
              var (c, n) := Sequence(d, lines, p);
              Unescaped(d, lines, p, to) == [c] + Unescaped(d, lines, p + n, to)
    ensures lines[p] != '\\' ==> Unescaped(d, lines, p, to) == [lines[p]] + Unescaped(d, lines, p + 1, to)
  {
  }

  lemma {:induction false} ProgressStep(d: Decoder, lines: string, style: Style, end: Option<Cursor>, whole: string,
                                        c: Cursor, acc: string, c': Cursor, acc': string)
    requires Progress(d, lines, style, end, whole, c, acc) && Turn(d, lines, c, style) == Go(c')
    requires acc' == if c.at == c.limit then acc else acc + Piece(d, lines, c, style)
    ensures Progress(d, lines, style, end, whole, c', acc')
  {
    if end.Some? && c.at < c.limit {
      ValueStep(d, lines, c, style, c', end.value.at);
      Associates(acc, Piece(d, lines, c, style), Value(d, lines, c'.at, end.value.at, style));
    }
  }

  lemma Associates(a: string, b: string, c: string)
    ensures a + (b + c) == (a + b) + c
  {
  }

  lemma {:induction false} ProgressStart(d: Decoder, lines: string, style: Style, end: Option<Cursor>, c: Cursor)
    requires CursorOk(lines, c, style) && end == Scan(d, lines, c, style)
    ensures Progress(d, lines, style, end, if end.Some? then Value(d, lines, c.at, end.value.at, style) else "", c, "")
  {
    if end.Some? {
      var v := Value(d, lines, c.at, end.value.at, style);
      assert "" + v == v;
    }
  }

  lemma {:induction false} ProgressEnd(d: Decoder, lines: string, style: Style, end: Option<Cursor>, whole: string,
                                       c: Cursor, acc: string)
    requires Progress(d, lines, style, end, whole, c, acc) && !Turn(d, lines, c, style).Go?
    ensures if Turn(d, lines, c, style).NoEnd? then end == None else end == Some(c) && acc == whole
  {
    if end.Some? { assert acc + "" == acc; }
  }

  /** The buffer holds the text up to pos. */
  ghost predicate Holds(buffer: string, text: string, pos: nat) {
    |buffer| == pos <= |text| && forall k :: 0 <= k < |buffer| ==> buffer[k] == text[k]
  }

  class ReadData {
    const decode: Decoder
    const text: string             // the bytes of the channel, from where it stands
    var pos: nat                   // how many of them have been read
    var buffer: string
    var lineIdx: nat

    ghost const lines: string

    /** Nothing has been read yet. */
    ghost predicate Fresh()
      reads this
    {
      AreLines(lines, text) && pos == 0 && buffer == "" && lineIdx == 0
    }

    /** The buffer holds whole lines. */
    ghost predicate Valid()
      reads this
    {
      && AreLines(lines, text) && 0 < pos <= |lines| && lines[pos - 1] == '\n'
      && Holds(buffer, lines, pos) && lineIdx <= |buffer|
    }

    constructor (decode: Decoder, text: string)
      ensures Fresh() && this.text == text && this.decode == decode
    {
      this.decode, this.text, lines, pos, buffer, lineIdx := decode, text, Lines(text), 0, "", 0;
      LinesAre(Lines(text), text);
    }

    /** Tcl_Gets on a blocking channel: append a line without its newline. */
    method Gets() returns (n: int, eof: bool)
      requires pos <= |text| && AreLines(lines, text)
      modifies this`pos, this`buffer
      ensures old(pos) == |text| ==> n < 0 && eof && pos == old(pos) && buffer == old(buffer)
      ensures |lines| <= old(pos) < |text| ==> n >= 0 && eof && pos == |text|
      ensures old(pos) < |lines| ==>
                n >= 0 && !eof && pos == LineEnd(lines, old(pos)) && buffer == old(buffer) + lines[old(pos)..pos - 1]
    {
      if pos == |text| { return -1, true; }
      var i := pos;
      while i < |text| && text[i] != '\n'
        invariant pos <= i <= |text|
        invariant forall j :: pos <= j < i ==> text[j] != '\n'
      {
        i := i + 1;
      }
      assert pos < |lines| ==> text[|lines| - 1] == '\n';
      buffer := buffer + text[pos..i];
      n, eof := i - pos, i == |text|;
      if i < |text| {
        assert i < |lines| && lines[i] == text[i];
        assert forall j :: pos <= j < i ==> lines[j] == text[j];
        LineEndIs(lines, pos, i + 1);
        assert text[pos..i] == lines[pos..i];
        i := i + 1;
      }
      pos := i;
    }

    /** ReadListLine */
    method ReadListLine() returns (status: Status<()>, failure: Failure)
      requires Fresh() || Valid()
      modifies this`pos, this`buffer
      ensures old(pos) < |lines| ==> status.Ok? && Valid() && pos == LineEnd(lines, old(pos))
      ensures old(pos) >= |lines| ==> pos == |text| && (status.Error? ==> failure == Truncated(text))
      ensures old(pos) >= |lines| ==> status == if old(pos) == |text| && lineIdx == 0 then Break else Error
    {
      failure := EofInElement;
      var n, eof := Gets();
      if n < 0 {
        if lineIdx > 0 { return Error, EofInElement; }
        return Break, EofInElement;
      }
      if eof { return Error, EofBeforeNewline; }
      buffer := buffer + "\n";
      return Ok(()), failure;
    }

    /** The next element, if any, is at lineIdx, in the last line read. */
    ghost predicate Reading()
      reads this
    {
      Valid() && Starts(lines, lineIdx, pos)
    }

    /** Advance over white space, within the line, to where the next element may start. */
    method Advance(from: nat)
      requires Valid() && from <= |buffer| && (from < pos ==> LineEnd(lines, from) == pos)
      modifies this`lineIdx
      ensures Reading() && lineIdx == SkipSpace(lines, from, pos)
    {
      var p := from;
      while p < |buffer| && IsSpace(buffer[p])
        invariant from <= p <= |buffer|
        invariant SkipSpace(lines, p, pos) == SkipSpace(lines, from, pos)
      {
        p := p + 1;
      }
      lineIdx := p;
      if p < |buffer| { SameLine(lines, from, p); }
    }

    /** ReadListInit. From here on, positions in the buffer are positions in the channel. */
    method ReadListInit() returns (status: Status<()>, failure: Failure)
      requires Fresh()
      modifies this`pos, this`buffer, this`lineIdx
      ensures 0 < |lines| ==> status.Ok? && Reading() && pos == LineEnd(lines, 0) && lineIdx == First(lines)
      ensures |lines| == 0 ==> pos == |text| && (if text == "" then status.Break?
                                                 else status.Error? && failure == EofBeforeNewline)
    {
      buffer, lineIdx := "", 0;
      status, failure := ReadListLine();
      if !status.Ok? { return; }
      Advance(0);
    }

    /** The switch of the character loop, for the character at p. */
    method ScanChar(p0: nat, openBraces0: nat, style: Style, elem0: string, cpStart0: nat)
      returns (found: bool, p: nat, openBraces: nat, elem: string, cpStart: nat)
      requires Valid() && cpStart0 <= p0 < |buffer| && CursorOk(lines, Cursor(p0, pos, openBraces0), style)
      ensures found ==> p == p0 && openBraces == openBraces0 && elem == elem0 + buffer[cpStart0..p0]
      ensures !found ==> p0 < p && cpStart <= p <= |buffer|
      ensures !found ==> elem + buffer[cpStart..p] ==
                         elem0 + buffer[cpStart0..p0] + Piece(decode, lines, Cursor(p0, pos, openBraces0), style)
      ensures var c := Cursor(p, pos, openBraces);
              Turn(decode, lines, Cursor(p0, pos, openBraces0), style) == if found then Found(c) else Go(c)
    {
      p, openBraces, elem, cpStart, found := p0, openBraces0, elem0, cpStart0, false;
      var c := buffer[p];
      if c == '\\' {
        p, elem, cpStart := ScanBackslash(p, style, elem, cpStart);
        return;
      }
      if c == '{' {
        if openBraces != 0 { openBraces := openBraces + 1; }
      } else if c == '}' {
        if openBraces > 1 { openBraces := openBraces - 1; } else { found := openBraces == 1; }
      } else if IsSpace(c) {
        found := openBraces == 0 && style != Quoted;
      } else if c == '"' {
        found := style == Quoted;
      }
      if found {
        elem := elem + buffer[cpStart..p];
      } else {
        assert buffer[cpStart..p + 1] == buffer[cpStart..p] + [c];
        Associates(elem, buffer[cpStart..p], [c]);
        p := p + 1;
      }
    }

    /** case '\\': the sequence is kept in braces and replaced elsewhere. */
    method ScanBackslash(p0: nat, style: Style, elem0: string, cpStart0: nat)
      returns (p: nat, elem: string, cpStart: nat)
      requires Valid() && cpStart0 <= p0 < |buffer| && LineEnd(lines, p0) == pos && buffer[p0] == '\\'
      ensures p == p0 + Sequence(decode, lines, p0).1 && cpStart <= p <= |buffer|
      ensures elem + buffer[cpStart..p] ==
              elem0 + buffer[cpStart0..p0] + Piece(decode, lines, Cursor(p0, pos, 0), style)
    {
      assert buffer == lines[..pos];
      var (bsChar, numChars) := Decoded(decode, buffer, p0);
      p := p0 + numChars;
      if style.Braced? {
        elem, cpStart := elem0, cpStart0;
        assert buffer[cpStart..p] == buffer[cpStart..p0] + lines[p0..p];
        Associates(elem, buffer[cpStart..p0], lines[p0..p]);
      } else {
        elem, cpStart := elem0 + buffer[cpStart0..p0] + [bsChar], p;
        assert buffer[p..p] == "" && elem + "" == elem;
      }
    }

    /** Nothing but the value of the element is at stake in the loop. */
    ghost predicate Scanning(style: Style, end: Option<Cursor>, whole: string, p: nat, openBraces: nat, elem: string,
                             cpStart: nat)
      reads this
    {
      && Valid() && cpStart <= p <= |buffer|
      && Progress(decode, lines, style, end, whole, Cursor(p, pos, openBraces), elem + buffer[cpStart..p])
    }

    /** The character at p. */
    method ScanNext(p0: nat, openBraces0: nat, style: Style, elem0: string, cpStart0: nat, ghost end: Option<Cursor>,
                    ghost whole: string)
      returns (found: bool, p: nat, openBraces: nat, elem: string, cpStart: nat)
      requires Scanning(style, end, whole, p0, openBraces0, elem0, cpStart0) && p0 < |buffer|
      ensures found ==> end == Some(Cursor(p, pos, openBraces)) && elem == whole
      ensures !found ==> p0 < p && Scanning(style, end, whole, p, openBraces, elem, cpStart)
    {
      ghost var c, acc := Cursor(p0, pos, openBraces0), elem0 + buffer[cpStart0..p0];
      found, p, openBraces, elem, cpStart := ScanChar(p0, openBraces0, style, elem0, cpStart0);
      if found {
        ProgressEnd(decode, lines, style, end, whole, c, acc);
      } else {
        ProgressStep(decode, lines, style, end, whole, c, acc, Cursor(p, pos, openBraces), elem + buffer[cpStart..p]);
      }
    }

    /** case 0, at the end of the lines read: the end of an element without braces or quotes; otherwise
        a further line is needed. */
    method ScanZero(p: nat, openBraces: nat, style: Style, elem0: string, cpStart: nat, ghost end: Option<Cursor>,
                    ghost whole: string)
      returns (more: Status<()>, failure: Failure, found: bool, elem: string)
      requires Scanning(style, end, whole, p, openBraces, elem0, cpStart) && p == |buffer|
      modifies this`pos, this`buffer, this`lineIdx
      ensures more.Ok? && found ==> Valid() && end == Some(Cursor(p, pos, openBraces)) && elem == whole
      ensures more.Ok? && !found ==> old(pos) < pos && Scanning(style, end, whole, p, openBraces, elem, cpStart)
      ensures !more.Ok? ==> end == None && more.Error? && failure == Truncated(text) && pos == |text|
    {
      ghost var c, acc := Cursor(p, pos, openBraces), elem0 + buffer[cpStart..p];
      more, failure, found, elem := Ok(()), EofInElement, style.Bare?, elem0;
      if found {
        elem := elem + buffer[cpStart..p];
        ProgressEnd(decode, lines, style, end, whole, c, acc);
        return;
      }
      ghost var piece := buffer[cpStart..p];
      lineIdx := p;
      more, failure := ReadListLine();
      if !more.Ok? {
        ProgressEnd(decode, lines, style, end, whole, c, acc);
        return;
      }
      assert buffer[cpStart..p] == piece;
      ProgressStep(decode, lines, style, end, whole, c, acc, Cursor(p, pos, openBraces), acc);
    }

    /** The whole loop, up to the character that ends the element. Brace depth and position survive
        each further line, and the buffer is never read past what it holds. */
    method ScanElement(from: nat, style: Style, ghost end: Option<Cursor>)
      returns (status: Status<string>, failure: Failure, p: nat, openBraces: nat)
      requires Valid() && from <= |buffer| && CursorOk(lines, Cursor(from, pos, Depth(style)), style)
      requires end == Scan(decode, lines, Cursor(from, pos, Depth(style)), style)
      modifies this`pos, this`buffer, this`lineIdx
      ensures end.None? ==> status.Error? && failure == Truncated(text) && pos == |text|
      ensures end.Some? ==>
                && status == Ok(Value(decode, lines, from, end.value.at, style)) && Valid()
                && end.value == Cursor(p, pos, openBraces)
    {
      ghost var whole := if end.Some? then Value(decode, lines, from, end.value.at, style) else "";
      ProgressStart(decode, lines, style, end, Cursor(from, pos, Depth(style)));
      assert "" + buffer[from..from] == "";
      status, failure, p, openBraces := ScanLoop(from, Depth(style), style, end, whole);
    }

    method ScanLoop(from: nat, depth: nat, style: Style, ghost end: Option<Cursor>, ghost whole: string)
      returns (status: Status<string>, failure: Failure, p: nat, openBraces: nat)
      requires Scanning(style, end, whole, from, depth, "", from)
      modifies this`pos, this`buffer, this`lineIdx
      ensures status.Ok? ==> status == Ok(whole) && Valid() && end == Some(Cursor(p, pos, openBraces))
      ensures !status.Ok? ==> end == None && status.Error? && failure == Truncated(text) && pos == |text|
    {
      var found, elem, cpStart := false, "", from;
      p, openBraces, failure := from, depth, EofInElement;
      while !found
        invariant found ==> Valid() && end == Some(Cursor(p, pos, openBraces)) && elem == whole
        invariant !found ==> Scanning(style, end, whole, p, openBraces, elem, cpStart)
        decreases !found, |lines| - p, |lines| - pos
      {
        if p < |buffer| {
          found, p, openBraces, elem, cpStart := ScanNext(p, openBraces, style, elem, cpStart, end, whole);
        } else {
          var more;
          more, failure, found, elem := ScanZero(p, openBraces, style, elem, cpStart, end, whole);
          if !more.Ok? { return Error, failure, p, openBraces; }
        }
      }
      status := Ok(elem);
    }

    /** The reader has done what item says. */
    ghost predicate Did(item: Item, status: Status<string>, failure: Failure)
      reads this
    {
      match item
      case Item(v, next, limit) => status == Ok(v) && Reading() && lineIdx == next && pos == limit
      case Garbage(f, limit) => status.Error? && failure == f && pos == limit
      case OutOfLines => status.Error? && failure == Truncated(text) && pos == |text|
    }

    /** The end of ReadListElement, when the element ends at end. */
    method FinishElement(elem: string, end: nat, ghost openBraces: nat, style: Style)
      returns (status: Status<string>, failure: Failure)
      requires Valid() && end <= |buffer| && CursorOk(lines, Cursor(end, pos, openBraces), style)
      requires style.Bare? || end < |buffer|
      modifies this`lineIdx
      ensures Did(Close(lines, elem, Cursor(end, pos, openBraces), style), status, failure)
    {
      failure := EofInElement;
      var p := end;
      status := Ok(elem);
      if !style.Bare? {
        p := p + 1;
        if !(p >= |buffer| || IsSpace(buffer[p])) {
          return Error, if style.Braced? then GarbageAfterBrace else GarbageAfterQuote;
        }
      }
      if p < |buffer| { SameLine(lines, end, p); }
      Advance(p);
    }

    /** ReadListElement, when there is an element. */
    method ReadElement(ghost at: nat) returns (status: Status<string>, failure: Failure)
      requires Reading() && lineIdx < |buffer| && at == lineIdx
      modifies this`pos, this`buffer, this`lineIdx
      ensures Did(Element(decode, lines, at, old(pos)), status, failure)
    {
      var style := StyleOf(buffer[lineIdx]);
      var cpStart := if style.Bare? then lineIdx else lineIdx + 1;
      ghost var start := Start(lines, at, pos);
      ghost var end := Scan(decode, lines, start, style);
      var p, openBraces;
      status, failure, p, openBraces := ScanElement(cpStart, style, end);
      if !status.Ok? { return; }
      status, failure := FinishElement(status.value, p, openBraces, style);
    }

    /** ReadListElement */
    method ReadListElement() returns (status: Status<string>, failure: Failure)
      requires Reading()
      modifies this`pos, this`buffer, this`lineIdx
      ensures old(lineIdx) == |old(buffer)| ==> status.Break? && Reading() && pos == old(pos)
      ensures old(lineIdx) < |old(buffer)| ==> Did(Element(decode, lines, old(lineIdx), old(pos)), status, failure)
    {
      if lineIdx == |buffer| { return Break, EofInElement; }
      status, failure := ReadElement(lineIdx);
    }

    /** One turn of the read loop of TclX_LgetsObjCmd. */
    method ReadTurn(elems: seq<string>, ghost outcome: Outcome)
      returns (status: Status<string>, failure: Failure, elems': seq<string>)
      requires Reading()
      requires outcome == After(elems, Elements(decode, lines, lineIdx, pos, Bad(Truncated(text), |text|)))
      modifies this`pos, this`buffer, this`lineIdx
      ensures status.Ok? ==>
                && Reading() && lineIdx > old(lineIdx)
                && outcome == After(elems', Elements(decode, lines, lineIdx, pos, Bad(Truncated(text), |text|)))
      ensures status.Break? ==> Reading() && elems' == elems && outcome == List(elems, pos)
      ensures status.Error? ==> outcome == Bad(failure, pos)
    {
      ghost var at, eof := lineIdx, Bad(Truncated(text), |text|);
      if lineIdx == |buffer| {
        AfterNone(decode, elems, lines, pos, eof);
      } else {
        AfterElement(decode, elems, lines, at, pos, eof);
      }
      ghost var item := if lineIdx < |buffer| then Element(decode, lines, at, pos) else OutOfLines;
      status, failure := ReadListElement();
      elems' := if status.Ok? then elems + [status.value] else elems;
      assert status.Ok? ==> item.Item? && item.next == lineIdx;
    }

    /** The read loop of TclX_LgetsObjCmd. resultLen is what the command returns when the list goes
        into a variable. */
    method Lgets() returns (ok: bool, elems: seq<string>, failure: Failure, resultLen: int)
      requires Fresh()
      modifies this`pos, this`buffer, this`lineIdx
      ensures match ReadList(decode, text)
              case Eof => ok && elems == [] && resultLen == -1 && pos == |text|
              case List(es, end) => ok && elems == es && resultLen == end - 1 && pos == end
              case Bad(f, end) => !ok && failure == f && pos == end
    {
      LinesAre(lines, text);
      ghost var outcome := ReadList(decode, text);
      var rstat;
      elems, resultLen := [], -1;
      rstat, failure := ReadListInit();
      if rstat.Break? { return true, [], failure, -1; }
      if rstat.Error? { return false, [], failure, -1; }
      var status: Status<string> := Ok("");
      while status.Ok?
        modifies this`pos, this`buffer, this`lineIdx
        invariant status.Ok? ==>
                    && Reading()
                    && outcome == After(elems, Elements(decode, lines, lineIdx, pos, Bad(Truncated(text), |text|)))
        invariant status.Break? ==> Reading() && outcome == List(elems, pos)
        invariant status.Error? ==> outcome == Bad(failure, pos)
        decreases status.Ok?, |lines| - lineIdx
      {
        status, failure, elems := ReadTurn(elems, outcome);
      }
      ok := status.Break?;
      if ok { resultLen := |buffer| - 1; }
    }
  }
}
