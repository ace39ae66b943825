/**
 * Reading one chunk of a PO catalog (`parseChunk`) and the header block of
 * its root record (`parseHeaders`), as in `po/po.go`.
 *
 * A chunk is split into lines. A line that does not start with `"` names a
 * token (the text before its first blank) and a value (the rest); a line
 * that starts with `"` continues the current token. A value that starts
 * with `"` is a Go string literal and is unquoted. Values for the same
 * token are concatenated.
 */
module PoParse {
  import opened Wrappers
  import opened Text
  import Strconv

  /** One translated text: `#:`, `msgid` and `msgstr` of a chunk. */
  datatype Record = Record(comment: string, msgID: string, msgStr: string)

  /**
   * Why a chunk does not yield a record. `BadQuote` is the error the Go
   * code returns; `IndexPanic` stands for the run-time panic of the Go code
   * when a token line has no blank, or nothing after it (an index out of
   * range): the program stops there.
   */
  datatype ChunkError = BadQuote(text: string) | IndexPanic(line: string)

  /** The current token and the values gathered so far, by token. */
  datatype ChunkState = ChunkState(token: string, hash: map<string, string>)

  /** A line the Go code can take apart without an index out of range. */
  predicate LineOk(line: string) {
    line == [] || line[0] == '"' || (var parts := SplitN2(line, " "); |parts| == 2 && parts[1] != [])
  }

  /** The value gathered for `token`, extended by `v`. */
  function Append(hash: map<string, string>, token: string, v: string): (r: map<string, string>)
    ensures r.Keys == hash.Keys + {token}
    ensures forall k :: k in hash && k != token ==> r[k] == hash[k]
  {
    hash[token := if token in hash then hash[token] + v else v]
  }

  /** The value for `k`, or `""` when there is none (a Go map's zero value). */
  function Get(hash: map<string, string>, k: string): (r: string)
    ensures k !in hash ==> r == ""
  {
    if k in hash then hash[k] else ""
  }

  /** One line of a chunk. */
  function LineStep(st: ChunkState, line: string): (r: Result<ChunkState, ChunkError>)
    ensures r.Err? && r.error.IndexPanic? <==> !LineOk(line)
    ensures line == [] ==> r == Ok(st)
  {
    if line == [] then Ok(st)
    else if !LineOk(line) then Err(IndexPanic(line))
    else
      var parts := SplitN2(line, " ");
      var token := if line[0] != '"' then parts[0] else st.token;
      var rem := if line[0] != '"' then parts[1] else line;
      if rem[0] == '"' then
        match Strconv.Unquote(rem)
        case None => Err(BadQuote(rem))
        case Some(v) => Ok(ChunkState(token, Append(st.hash, token, v)))
      else Ok(ChunkState(token, Append(st.hash, token, rem)))
  }

  /** The lines of a chunk, in order; the first error ends the walk. */
  function ChunkFold(st: ChunkState, lines: seq<string>): Result<ChunkState, ChunkError>
    decreases |lines|
  {
    if lines == [] then Ok(st)
    else match LineStep(st, lines[0])
      case Err(e) => Err(e)
      case Ok(st') => ChunkFold(st', lines[1..])
  }

  /** The record built from the gathered values: only `#:`, `msgid` and `msgstr` are used. */
  function RecordOf(hash: map<string, string>): (r: Record)
    ensures r.comment == Get(hash, "#:") && r.msgID == Get(hash, "msgid") && r.msgStr == Get(hash, "msgstr")
  {
    Record(Get(hash, "#:"), Get(hash, "msgid"), Get(hash, "msgstr"))
  }

  const Start := ChunkState("", map[])

  /** What `parseChunk` yields for a chunk. */
  function ParseChunkSpec(chunk: string): Result<Record, ChunkError> {
    match ChunkFold(Start, Split(chunk, "\n"))
    case Err(e) => Err(e)
    case Ok(st) => Ok(RecordOf(st.hash))
  }

  /** `parseChunk`: the loop over the lines of a chunk. */
  method ParseChunk(chunk: string) returns (r: Result<Record, ChunkError>)
    ensures r == ParseChunkSpec(chunk)
  {
    var lines := Split(chunk, "\n");
    ghost var goal := ChunkFold(Start, lines);
    var token := "";
    var hash: map<string, string> := map[];
    var rest := lines;
    while rest != []
      invariant ChunkFold(ChunkState(token, hash), rest) == goal
      decreases |rest|
    {
      var step := ParseLine(token, hash, rest[0]);
      if step.Err? {
        return Err(step.error);
      }
      token, hash := step.value.token, step.value.hash;
      rest := rest[1..];
    }
    return Ok(RecordOf(hash));
  }

  /** The body of the loop of `parseChunk`, for one line. */
  method ParseLine(token: string, hash: map<string, string>, line: string) returns (r: Result<ChunkState, ChunkError>)
    ensures r == LineStep(ChunkState(token, hash), line)
  {
    if |line| == 0 {
      return Ok(ChunkState(token, hash));
    }
    var tok := token;
    var remainder := line;
    if line[0] != '"' {
      var parts := SplitN2(line, " ");
      if |parts| < 2 {
        return Err(IndexPanic(line));
      }
      tok := parts[0];
      remainder := parts[1];
    }
    if |remainder| == 0 {
      return Err(IndexPanic(line));
    }
    if remainder[0] == '"' {
      var replacement := Strconv.Unquote(remainder);
      if replacement.None? {
        return Err(BadQuote(remainder));
      }
      remainder := replacement.value;
    }
    if tok in hash {
      return Ok(ChunkState(tok, hash[tok := hash[tok] + remainder]));
    }
    return Ok(ChunkState(tok, hash[tok := remainder]));
  }

  lemma FoldStep(st: ChunkState, line: string, rest: seq<string>)
    ensures LineStep(st, line).Err? ==> ChunkFold(st, [line] + rest) == Err(LineStep(st, line).error)
    ensures LineStep(st, line).Ok? ==> ChunkFold(st, [line] + rest) == ChunkFold(LineStep(st, line).value, rest)
  {
    assert ([line] + rest)[1..] == rest;
  }

  /** A token line `token value`, where the token has no blank, names that token and that value. */
  lemma {:induction false} TokenLine(st: ChunkState, token: string, v: string)
    requires ' ' !in token && token != [] && token[0] != '"' && v != []
    ensures LineOk(token + " " + v)
    ensures LineStep(st, token + " " + v) ==
      if v[0] == '"' then
        match Strconv.Unquote(v)
        case None => Err(BadQuote(v))
        case Some(u) => Ok(ChunkState(token, Append(st.hash, token, u)))
      else Ok(ChunkState(token, Append(st.hash, token, v)))
  {
    SplitN2At(token, ' ', v);
    assert token + " " + v == token + [' '] + v;
  }

  /** A line that starts with `"` continues the current token with the unquoted text. */
  lemma ContinuationLine(st: ChunkState, s: string)
    ensures LineStep(st, Strconv.Quote(s)) == Ok(ChunkState(st.token, Append(st.hash, st.token, s)))
  {
    Strconv.UnquoteQuote(s);
  }

  /** A token other than `#:`, `msgid` and `msgstr` leaves the record as it was. */
  lemma ForeignToken(st: ChunkState, line: string)
    requires LineStep(st, line).Ok?
    requires line != [] && line[0] != '"'
    requires SplitN2(line, " ")[0] !in {"#:", "msgid", "msgstr"}
    ensures RecordOf(LineStep(st, line).value.hash) == RecordOf(st.hash)
  {
    var parts := SplitN2(line, " ");
    var rem := parts[1];
    var v := if rem[0] == '"' then Strconv.Unquote(rem).value else rem;
    assert LineStep(st, line).value.hash == Append(st.hash, parts[0], v);
    AppendForeign(st.hash, parts[0], v);
  }

  lemma AppendForeign(hash: map<string, string>, token: string, v: string)
    requires token !in {"#:", "msgid", "msgstr"}
    ensures RecordOf(Append(hash, token, v)) == RecordOf(hash)
  {
  }

  /** The first line whose quoted value does not unquote ends the chunk with that error, whatever follows. */
  lemma BadQuoteStops(st: ChunkState, line: string, rest: seq<string>)
    requires LineStep(st, line).Err?
    ensures ChunkFold(st, [line] + rest) == Err(LineStep(st, line).error)
  {
  }

  /** A chunk whose lines all have the shape the Go code expects never panics. */
  lemma {:induction false} ChunkNoPanic(st: ChunkState, lines: seq<string>)
    requires forall i :: 0 <= i < |lines| ==> LineOk(lines[i])
    ensures ChunkFold(st, lines).Err? ==> ChunkFold(st, lines).error.BadQuote?
    decreases |lines|
  {
    if lines != [] {
      match LineStep(st, lines[0])
      case Err(e) =>
      case Ok(st') => ChunkNoPanic(st', lines[1..]);
    }
  }

  /** A token line: the token, a blank, and the quoted value. */
  function TokenLineOf(token: string, s: string): string {
    token + " " + Strconv.Quote(s)
  }

  /** The three lines of a chunk written with a blank after each token. */
  function Rendered(r: Record): string {
    TokenLineOf("#:", r.comment) + "\n" + TokenLineOf("msgid", r.msgID) + "\n" + TokenLineOf("msgstr", r.msgStr)
  }

  /** Splitting `a + "\n" + b` on newlines, where `a` has no newline. */
  lemma SplitLine(a: string, b: string)
    requires '\n' !in a
    ensures Split(a + "\n" + b, "\n") == [a] + Split(b, "\n")
  {
    assert a + "\n" + b == a + ['\n'] + b;
    SplitCons(a, '\n', b);
  }

  /** A token line holds no newline when its token holds none, and it sets the token to the unquoted value. */
  lemma QuotedLine(st: ChunkState, token: string, s: string)
    requires ' ' !in token && '\n' !in token && token != [] && token[0] != '"'
    ensures '\n' !in TokenLineOf(token, s)
    ensures LineStep(st, TokenLineOf(token, s)) == Ok(ChunkState(token, Append(st.hash, token, s)))
  {
    TokenLine(st, token, Strconv.Quote(s));
    Strconv.UnquoteQuote(s);
    Strconv.QuoteOneLine(s);
  }

  lemma RenderedLines(r: Record)
    ensures Split(Rendered(r), "\n") ==
      [TokenLineOf("#:", r.comment), TokenLineOf("msgid", r.msgID), TokenLineOf("msgstr", r.msgStr)]
  {
    TokenLineOneLine("#:", r.comment);
    TokenLineOneLine("msgid", r.msgID);
    TokenLineOneLine("msgstr", r.msgStr);
    SplitThree(TokenLineOf("#:", r.comment), TokenLineOf("msgid", r.msgID), TokenLineOf("msgstr", r.msgStr));
  }

  lemma TokenLineOneLine(token: string, s: string)
    requires '\n' !in token
    ensures '\n' !in TokenLineOf(token, s)
  {
    Strconv.QuoteOneLine(s);
  }

  /** Three lines joined by newlines split back into those three lines. */
  lemma SplitThree(a: string, b: string, c: string)
    requires '\n' !in a && '\n' !in b && '\n' !in c
    ensures Split(a + "\n" + b + "\n" + c, "\n") == [a, b, c]
  {
    var tail := b + "\n" + c;
    assert a + "\n" + b + "\n" + c == a + "\n" + tail;
    SplitNone(c, '\n');
    SplitLine(b, c);
    assert Split(tail, "\n") == [b, c];
    SplitLine(a, tail);
  }

  /** The hash a rendered chunk leaves behind. */
  function RenderedHash(r: Record): map<string, string> {
    map["#:" := r.comment, "msgid" := r.msgID, "msgstr" := r.msgStr]
  }

  lemma RenderedFold(r: Record)
    ensures ChunkFold(Start, [TokenLineOf("#:", r.comment), TokenLineOf("msgid", r.msgID), TokenLineOf("msgstr", r.msgStr)])
            == Ok(ChunkState("msgstr", RenderedHash(r)))
  {
    var l1, l2, l3 := TokenLineOf("#:", r.comment), TokenLineOf("msgid", r.msgID), TokenLineOf("msgstr", r.msgStr);
    var s1 := ChunkState("#:", Append(Start.hash, "#:", r.comment));
    var s2 := ChunkState("msgid", Append(s1.hash, "msgid", r.msgID));
    var s3 := ChunkState("msgstr", Append(s2.hash, "msgstr", r.msgStr));
    calc {
      ChunkFold(Start, [l1, l2, l3]);
      { assert [l1, l2, l3] == [l1] + [l2, l3]; QuotedFold(Start, "#:", r.comment, [l2, l3]); }
      ChunkFold(s1, [l2, l3]);
      { assert [l2, l3] == [l2] + [l3]; QuotedFold(s1, "msgid", r.msgID, [l3]); }
      ChunkFold(s2, [l3]);
      { assert [l3] == [l3] + []; QuotedFold(s2, "msgstr", r.msgStr, []); }
      ChunkFold(s3, []);
      { assert s3.hash == RenderedHash(r); }
      Ok(ChunkState("msgstr", RenderedHash(r)));
    }
  }

  /** A token line with a quoted value, followed by more lines. */
  lemma QuotedFold(st: ChunkState, token: string, s: string, rest: seq<string>)
    requires ' ' !in token && '\n' !in token && token != [] && token[0] != '"'
    ensures ChunkFold(st, [TokenLineOf(token, s)] + rest) == ChunkFold(ChunkState(token, Append(st.hash, token, s)), rest)
  {
    QuotedLine(st, token, s);
    FoldStep(st, TokenLineOf(token, s), rest);
  }

  /** A chunk written with a blank after each token reads back as the record it was written from. */
  lemma ParseRendered(r: Record)
    ensures ParseChunkSpec(Rendered(r)) == Ok(r)
  {
    RenderedLines(r);
    RenderedFold(r);
    assert RecordOf(RenderedHash(r)) == r;
  }

  lemma FoldThree(st: ChunkState, l1: string, l2: string, l3: string)
    requires LineStep(st, l1).Ok? && LineStep(LineStep(st, l1).value, l2).Ok?
    ensures ChunkFold(st, [l1, l2, l3]) == LineStep(LineStep(LineStep(st, l1).value, l2).value, l3)
  {
    var s1 := LineStep(st, l1).value;
    var s2 := LineStep(s1, l2).value;
    assert [l1, l2, l3] == [l1] + [l2, l3];
    FoldStep(st, l1, [l2, l3]);
    assert [l2, l3] == [l2] + [l3];
    FoldStep(s1, l2, [l3]);
    assert [l3] == [l3] + [];
    FoldStep(s2, l3, []);
  }

  /**
   * `msgstr` followed directly by the quoted text, with no blank between, is
   * a line the Go reader cannot take apart when the text holds no blank.
   */
  lemma GluedTokenPanics(st: ChunkState, s: string)
    requires ' ' !in s
    ensures LineStep(st, "msgstr" + Strconv.Quote(s)) == Err(IndexPanic("msgstr" + Strconv.Quote(s)))
  {
    var line := "msgstr" + Strconv.Quote(s);
    Strconv.QuoteBodyAvoids(s, ' ');
    assert ' ' !in line;
    assert FirstOcc(line, " ").None? by {
      if FirstOcc(line, " ").Some? {
        FirstOccChar(line, ' ');
      }
    }
  }

  /**
   * `msgstr` followed directly by the quoted text never sets `msgstr`: when
   * the line can be taken apart at all, its token is everything before the
   * first blank, which is longer than `msgstr"`, so the record is unchanged.
   */
  lemma {:induction false} GluedTokenForeign(st: ChunkState, s: string)
    ensures var line := "msgstr" + Strconv.Quote(s);
            LineStep(st, line).Ok? ==>
              && LineStep(st, line).value.token != "msgstr"
              && RecordOf(LineStep(st, line).value.hash) == RecordOf(st.hash)
  {
    var line := "msgstr" + Strconv.Quote(s);
    if LineStep(st, line).Ok? {
      var parts := SplitN2(line, " ");
      var t := parts[0];
      FirstOccChar(t, ' ');
      assert line == t + " " + parts[1];
      assert line[|t|] == ' ';
      assert forall k :: 0 <= k < 7 ==> line[k] == "msgstr\""[k];
      assert |t| >= 7;
      ForeignToken(st, line);
    }
  }

  // ---------------------------------------------------------------------
  // Headers

  /** The key and value of a header line: trimmed text before and after its first `:`. */
  function HeaderEntry(line: string): Option<(string, string)> {
    var parts := SplitN2(line, ":");
    if |parts| == 2 then Some((TrimSpace(parts[0]), TrimSpace(parts[1]))) else None
  }

  function Put(h: map<string, string>, line: string): map<string, string> {
    var e := HeaderEntry(line);
    if e.None? then h else h[e.value.0 := e.value.1]
  }

  /** The header lines applied in order to the map gathered so far. */
  function HeadersFrom(h: map<string, string>, lines: seq<string>): map<string, string>
    decreases |lines|
  {
    if lines == [] then h else HeadersFrom(Put(h, lines[0]), lines[1..])
  }

  /** `parseHeaders`: the loop over the lines of the root record's text. It never fails. */
  method ParseHeaders(s: string) returns (h: map<string, string>)
    ensures h == HeadersFrom(map[], Split(s, "\n"))
  {
    var headerLines := Split(s, "\n");
    ghost var goal := HeadersFrom(map[], headerLines);
    h := map[];
    var rest := headerLines;
    while rest != []
      invariant HeadersFrom(h, rest) == goal
      decreases |rest|
    {
      h := PutHeader(h, rest[0]);
      rest := rest[1..];
    }
  }

  /** The body of the loop of `parseHeaders`: a line with a `:` sets its trimmed key to its trimmed value. */
  method PutHeader(h: map<string, string>, line: string) returns (h': map<string, string>)
    ensures h' == Put(h, line)
  {
    h' := h;
    var parts := SplitN2(line, ":");
    if |parts| == 2 {
      h' := h[TrimSpace(parts[0]) := TrimSpace(parts[1])];
      assert HeaderEntry(line) == Some((TrimSpace(parts[0]), TrimSpace(parts[1])));
    }
  }

  /** The value of the LAST line whose key is `k`, read from the back. */
  function LastValue(lines: seq<string>, k: string): Option<string>
    decreases |lines|
  {
    if lines == [] then None
    else
      var e := HeaderEntry(lines[|lines| - 1]);
      if e.Some? && e.value.0 == k then Some(e.value.1) else LastValue(lines[..|lines| - 1], k)
  }

  lemma {:induction false} HeadersFromSnoc(h: map<string, string>, lines: seq<string>, line: string)
    ensures HeadersFrom(h, lines + [line]) == Put(HeadersFrom(h, lines), line)
    decreases |lines|
  {
    if lines != [] {
      assert (lines + [line])[1..] == lines[1..] + [line];
      HeadersFromSnoc(Put(h, lines[0]), lines[1..], line);
    }
  }

  /**
   * A later line with the same key wins: the header for `k` is the value of
   * the last line whose key is `k`, and without such a line it is what it was.
   */
  lemma {:induction false} HeadersLastWins(h: map<string, string>, lines: seq<string>, k: string)
    ensures LastValue(lines, k).Some? ==>
              k in HeadersFrom(h, lines) && HeadersFrom(h, lines)[k] == LastValue(lines, k).value
    ensures LastValue(lines, k).None? ==>
              (k in HeadersFrom(h, lines) <==> k in h) && (k in h ==> HeadersFrom(h, lines)[k] == h[k])
    decreases |lines|
  {
    if lines != [] {
      var init := lines[..|lines| - 1];
      var last := lines[|lines| - 1];
      assert lines == init + [last];
      HeadersFromSnoc(h, init, last);
      HeadersLastWins(h, init, k);
      var before := HeadersFrom(h, init);
      var e := HeaderEntry(last);
      assert HeadersFrom(h, lines) == (if e.None? then before else before[e.value.0 := e.value.1]);
      assert LastValue(lines, k) == (if e.Some? && e.value.0 == k then Some(e.value.1) else LastValue(init, k));
    }
  }

  /** The headers gathered so far have no white space at either end of a key or a value. */
  predicate AllTrimmed(h: map<string, string>) {
    forall k :: k in h ==> Trimmed(k) && Trimmed(h[k])
  }

  /** Every header key and value has no white space at either end. */
  lemma {:induction false} HeadersTrimmed(h: map<string, string>, lines: seq<string>)
    requires AllTrimmed(h)
    ensures AllTrimmed(HeadersFrom(h, lines))
    decreases |lines|
  {
    if lines != [] {
      HeadersTrimmed(Put(h, lines[0]), lines[1..]);
    }
  }
}
