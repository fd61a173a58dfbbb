/**
 Reading zone file lines (src/zone.rs): cutting comments, counting parentheses, buffering
 the lines of a record and splitting it into fields. A Rust `char` is a Dafny `char`.
 */
module ZoneFile {
  import opened Bytes

  /** `char::is_whitespace`: the Unicode White_Space property. */
  predicate IsWhitespace(c: char) {
    var n := c as int;
    9 <= n <= 13 || n == 32 || n == 0x85 || n == 0xA0 || n == 0x1680 || 0x2000 <= n <= 0x200A
    || n == 0x2028 || n == 0x2029 || n == 0x202F || n == 0x205F || n == 0x3000
  }

  // Quotes and escapes, as all three scanners track them

  datatype Scan = Scan(quoted: bool, escaped: bool)

  const CLEAN := Scan(false, false)

  function Next(s: Scan, c: char): Scan {
    if s.escaped then s.(escaped := false)
    else if c == '\\' then s.(escaped := true)
    else if c == '"' then s.(quoted := !s.quoted)
    else s
  }

  function After(s: Scan, line: string): Scan {
    if line == [] then s else Next(After(s, line[..|line| - 1]), line[|line| - 1])
  }

  lemma {:induction false} AfterConcat(s: Scan, a: string, b: string)
    ensures After(s, a + b) == After(After(s, a), b)
  {
    if b == [] {
      assert a + b == a;
    } else {
      var init := b[..|b| - 1];
      AfterConcat(s, a, init);
      assert (a + b)[..|a + b| - 1] == a + init;
    }
  }

  // The three scanners

  /** The character at `i` is a comment sign outside quotes and escapes. */
  predicate StartsComment(line: string, i: nat) {
    i < |line| && line[i] == ';' && After(CLEAN, line[..i]) == CLEAN
  }

  function CommentStart(line: string, i: nat): (k: nat)
    requires i <= |line|
    ensures i <= k <= |line| && (k < |line| ==> StartsComment(line, k))
    ensures forall j :: i <= j < k ==> !StartsComment(line, j)
    decreases |line| - i
  {
    if i == |line| || StartsComment(line, i) then i else CommentStart(line, i + 1)
  }

  /** `strip_zone_comment` */
  function Strip(line: string): string {
    line[..CommentStart(line, 0)]
  }

  /** `parenthesis_balance`, from a given scan state. */
  function Balance(s: Scan, line: string): int {
    if line == [] then 0
    else
      var init, c := line[..|line| - 1], line[|line| - 1];
      Balance(s, init) + if After(s, init) != CLEAN then 0 else if c == '(' then 1 else if c == ')' then -1 else 0
  }

  /** Fields so far, the field being read, and the scan state. */
  datatype Fields = Fields(done: seq<string>, current: string, scan: Scan)

  const START := Fields([], "", CLEAN)

  function Flushed(f: Fields): Fields {
    if f.current == "" then f else f.(done := f.done + [f.current], current := "")
  }

  predicate Separates(c: char) {
    c == '(' || c == ')' || IsWhitespace(c)
  }

  function Field(f: Fields, c: char): Fields {
    if f.scan == CLEAN && Separates(c) then Flushed(f)
    else f.(current := f.current + [c], scan := Next(f.scan, c))
  }

  function Scanned(f: Fields, line: string): Fields {
    if line == [] then f else Field(Scanned(f, line[..|line| - 1]), line[|line| - 1])
  }

  /** `tokenize_zone_line` */
  function Tokens(line: string): seq<string> {
    Flushed(Scanned(START, line)).done
  }

  lemma {:induction false} ScannedConcat(f: Fields, a: string, b: string)
    ensures Scanned(f, a + b) == Scanned(Scanned(f, a), b)
  {
    hide Field;
    if b == [] {
      assert a + b == a;
    } else {
      var init := b[..|b| - 1];
      ScannedConcat(f, a, init);
      assert (a + b)[..|a + b| - 1] == a + init;
    }
  }

  /** The tokenizer tracks quotes and escapes as the other scanners do. */
  lemma {:induction false} ScannersAgree(f: Fields, line: string)
    ensures Scanned(f, line).scan == After(f.scan, line)
  {
    if line != [] {
      ScannersAgree(f, line[..|line| - 1]);
    }
  }

  /** Fields already done do not matter to what follows. */
  lemma {:induction false} ScannedAfter(ts: seq<string>, f: Fields, line: string)
    ensures Scanned(f.(done := ts + f.done), line) == Scanned(f, line).(done := ts + Scanned(f, line).done)
  {
    if line != [] {
      ScannedAfter(ts, f, line[..|line| - 1]);
      FieldAfter(ts, Scanned(f, line[..|line| - 1]), line[|line| - 1]);
    }
  }

  lemma FieldAfter(ts: seq<string>, f: Fields, c: char)
    ensures Field(f.(done := ts + f.done), c) == Field(f, c).(done := ts + Field(f, c).done)
  {
    assert ts + f.done + [f.current] == ts + (f.done + [f.current]);
  }

  /** A line that leaves no quote or escape open, then a blank: its fields are complete. */
  lemma LineThenBlank(ts: seq<string>, line: string)
    requires After(CLEAN, line) == CLEAN
    ensures Scanned(Fields(ts, "", CLEAN), line + " ") == Fields(ts + Tokens(line), "", CLEAN)
  {
    hide Scanned, After;
    ScannersAgree(START, line);
    ScannedAfter(ts, START, line);
    assert START.(done := ts + START.done) == Fields(ts, "", CLEAN);
    ScannedConcat(Fields(ts, "", CLEAN), line, " ");
    OneMore(Scanned(Fields(ts, "", CLEAN), line), ' ');
    var f := Scanned(START, line);
    assert ts + f.done + [f.current] == ts + (f.done + [f.current]);
  }

  lemma OneMore(f: Fields, c: char)
    ensures Scanned(f, [c]) == Field(f, c)
  {
    assert [c][..0] == [];
    assert Scanned(f, []) == f;
  }

  // Trimming

  function TrimLeft(s: string): string {
    if s != [] && IsWhitespace(s[0]) then TrimLeft(s[1..]) else s
  }

  function TrimRight(s: string): string {
    if s != [] && IsWhitespace(s[|s| - 1]) then TrimRight(s[..|s| - 1]) else s
  }

  /** `str::trim` */
  function Trim(s: string): string {
    TrimRight(TrimLeft(s))
  }

  predicate Blank(s: string) {
    forall i :: 0 <= i < |s| ==> IsWhitespace(s[i])
  }

  lemma {:induction false} TrimLeftSplits(s: string)
    ensures |TrimLeft(s)| <= |s| && var k := |s| - |TrimLeft(s)|; Blank(s[..k]) && s[k..] == TrimLeft(s)
  {
    if s != [] && IsWhitespace(s[0]) {
      TrimLeftSplits(s[1..]);
      var k := |s[1..]| - |TrimLeft(s[1..])|;
      assert s[..k + 1] == [s[0]] + s[1..][..k];
    }
  }

  lemma {:induction false} TrimRightSplits(s: string)
    ensures var t := TrimRight(s); t <= s && Blank(s[|t|..])
  {
    if s != [] && IsWhitespace(s[|s| - 1]) {
      var init := s[..|s| - 1];
      TrimRightSplits(init);
      var t := TrimRight(init);
      assert s[|t|..] == init[|t|..] + [s[|s| - 1]];
    }
  }

  lemma TrimBlank(s: string)
    ensures Trim(s) == "" <==> Blank(s)
  {
    hide TrimLeft, TrimRight, IsWhitespace;
    TrimLeftSplits(s);
    var t := TrimLeft(s);
    var k := |s| - |t|;
    TrimRightSplits(t);
    assert s == s[..k] + t;
    assert t == TrimRight(t) + t[|TrimRight(t)|..];
    if Trim(s) == "" {
      assert t[0..] == t;
      BlankConcat(s[..k], t);
    } else {
      TrimmedEnd(t);
      var r := TrimRight(t);
      assert s[k + |r| - 1] == t[|r| - 1] == r[|r| - 1];
    }
  }

  lemma BlankConcat(a: string, b: string)
    requires Blank(a) && Blank(b)
    ensures Blank(a + b)
  {}

  lemma {:induction false} TrimmedEnd(s: string)
    ensures TrimRight(s) != "" ==> !IsWhitespace(TrimRight(s)[|TrimRight(s)| - 1])
  {
    if s != [] && IsWhitespace(s[|s| - 1]) {
      TrimmedEnd(s[..|s| - 1]);
    }
  }

  /** Blanks outside quotes and escapes only end a field. */
  lemma {:induction false} BlanksFlush(f: Fields, s: string)
    requires Blank(s) && f.scan == CLEAN
    ensures Flushed(Scanned(f, s)) == Flushed(f) && Scanned(f, s).scan == CLEAN
    ensures s != [] ==> Scanned(f, s) == Flushed(f)
  {
    hide IsWhitespace;
    if s != [] {
      BlanksFlush(f, s[..|s| - 1]);
      assert IsWhitespace(s[|s| - 1]);
    }
  }

  lemma TrimLeftHarmless(s: string)
    ensures Tokens(TrimLeft(s)) == Tokens(s) && After(CLEAN, TrimLeft(s)) == After(CLEAN, s)
  {
    hide IsWhitespace, Scanned, After, TrimLeft;
    TrimLeftSplits(s);
    var t := TrimLeft(s);
    var k := |s| - |t|;
    assert s == s[..k] + t;
    ScannedConcat(START, s[..k], t);
    BlanksFlush(START, s[..k]);
    BlanksStart(s[..k]);
    ScannersAgree(START, s);
    ScannersAgree(START, t);
  }

  lemma BlanksStart(s: string)
    requires Blank(s)
    ensures Scanned(START, s) == START
  {
    hide IsWhitespace;
    BlanksFlush(START, s);
    if s == [] { assert Scanned(START, s) == START; }
  }

  /** Trimming cuts the text in the middle of an escape. */
  predicate EndsMidEscape(s: string) {
    After(CLEAN, TrimRight(s)).escaped
  }

  lemma LastTokenEndsBlank(f: Fields, w: char, rest: string)
    requires f.scan == Scan(false, true) && IsWhitespace(w) && Blank(rest)
    ensures Flushed(Scanned(f, [w] + rest)).done == f.done + [f.current + [w]]
  {
    hide IsWhitespace, Scanned;
    ScannedConcat(f, [w], rest);
    OneMore(f, w);
    BlanksFlush(Field(f, w), rest);
  }

  lemma {:induction false} BlankKeepsQuote(s: Scan, rest: string)
    requires Blank(rest) && !s.escaped
    ensures After(s, rest) == s
  {
    if rest != [] {
      BlankKeepsQuote(s, rest[..|rest| - 1]);
      assert IsWhitespace(rest[|rest| - 1]);
    }
  }

  /** What trailing blanks were part of: nothing, or the end of the last field. */
  lemma TrimRightEffect(s: string)
    requires After(CLEAN, s) == CLEAN
    ensures !EndsMidEscape(s) ==> Tokens(TrimRight(s)) == Tokens(s)
    ensures EndsMidEscape(s) ==>
              var f := Scanned(START, TrimRight(s));
              exists w :: IsWhitespace(w) && Tokens(s) == f.done + [f.current + [w]] && Tokens(TrimRight(s))
                  == Flushed(f).done
  {
    hide IsWhitespace, Scanned, After, TrimRight, Field;
    TrimRightSplits(s);
    var t := TrimRight(s);
    var rest := s[|t|..];
    assert s == t + rest;
    ScannedConcat(START, t, rest);
    AfterConcat(CLEAN, t, rest);
    ScannersAgree(START, t);
    var f := Scanned(START, t);
    if EndsMidEscape(s) {
      EscapeUsesOne(After(CLEAN, t), rest);
      assert rest == [rest[0]] + rest[1..];
      LastTokenEndsBlank(f, rest[0], rest[1..]);
      assert IsWhitespace(rest[0]) && Tokens(s) == f.done + [f.current + [rest[0]]];
    } else {
      BlankKeepsQuote(After(CLEAN, t), rest);
      BlanksFlush(f, rest);
    }
  }

  lemma EscapeUsesOne(s: Scan, rest: string)
    requires s.escaped && Blank(rest) && After(s, rest) == CLEAN
    ensures rest != [] && Blank(rest[1..]) && s == Scan(false, true)
  {
    hide IsWhitespace, After;
    if rest == [] {
      AfterNothing(s);
    } else {
      assert rest == [rest[0]] + rest[1..];
      AfterConcat(s, [rest[0]], rest[1..]);
      AfterOne(s, rest[0]);
      BlankKeepsQuote(After(s, [rest[0]]), rest[1..]);
    }
  }

  lemma AfterNothing(s: Scan)
    ensures After(s, []) == s
  {}

  lemma AfterOne(s: Scan, c: char)
    ensures After(s, [c]) == Next(s, c)
  {
    assert [c][..0] == [];
    AfterNothing(s);
  }

  /** On a text that closes its quotes, trimming keeps the fields exactly when it does not cut an escape. */
  lemma TrimKeepsFieldsExactly(s: string)
    requires After(CLEAN, s) == CLEAN
    ensures Tokens(Trim(s)) == Tokens(s) <==> !EndsMidEscape(TrimLeft(s))
  {
    hide IsWhitespace, TrimLeft, TrimRight, Scanned, After, Tokens, EndsMidEscape;
    var t := TrimLeft(s);
    TrimLeftHarmless(s);
    TrimRightEffect(t);
    if EndsMidEscape(t) {
      var f := Scanned(START, TrimRight(t));
      var w :| IsWhitespace(w) && Tokens(t) == f.done + [f.current + [w]] && Tokens(TrimRight(t)) == Flushed(f).done;
      LastDiffers(f, w);
    }
  }

  lemma LastDiffers(f: Fields, w: char)
    ensures f.done + [f.current + [w]] != Flushed(f).done
  {
    var a, b := f.done + [f.current + [w]], Flushed(f).done;
    if |a| == |b| {
      assert |a[|f.done|]| != |b[|f.done|]|;
    }
  }

  // Buffering the lines of a record

  datatype Buffer = Buffer(pending: string, open: int)

  const EMPTY := Buffer("", 0)

  /** One line of the file: the buffer after it, and the record it completes. */
  function Feed(b: Buffer, raw: string): (Buffer, Option<string>) {
    var line := Strip(raw);
    if b.pending == "" && Trim(line) == "" then (b, None)
    else
      var pending := b.pending + line + " ";
      var open := b.open + Balance(CLEAN, line);
      if open > 0 then (Buffer(pending, open), None) else (EMPTY, Some(pending))
  }

  /** The records `load_file` splits; an unfinished one at the end is dropped. */
  function RecordTexts(b: Buffer, lines: seq<string>): seq<string>
    decreases |lines|
  {
    if lines == [] then []
    else
      var (next, record) := Feed(b, lines[0]);
      (if record.Some? then [record.value] else []) + RecordTexts(next, lines[1..])
  }

  method ReadRecords(lines: seq<string>) returns (records: seq<string>)
    ensures records == RecordTexts(EMPTY, lines)
  {
    hide Strip, Balance, Trim, RecordTexts;
    records := [];
    var pending := "";
    var open := 0;
    assert lines[0..] == lines;
    for i := 0 to |lines|
      invariant RecordTexts(EMPTY, lines) == records + RecordTexts(Buffer(pending, open), lines[i..])
    {
      TextsStep(Buffer(pending, open), lines, i);
      var line := StripComment(lines[i]);
      if pending == "" && Trim(line) == "" { continue; }
      pending := pending + line;
      pending := pending + " ";
      var balance := ParenthesisBalance(line);
      open := open + balance;
      if open > 0 { continue; }
      open := 0;
      records := records + [pending];
      pending := "";
    }
    NoTexts(Buffer(pending, open));
    assert lines[|lines|..] == [] && records + [] == records;
  }

  lemma TextsStep(b: Buffer, lines: seq<string>, i: nat)
    requires i < |lines|
    ensures RecordTexts(b, lines[i..])
            == (if Feed(b, lines[i]).1.Some? then [Feed(b, lines[i]).1.value] else [])
               + RecordTexts(Feed(b, lines[i]).0, lines[i + 1..])
  {
    hide Feed;
    assert lines[i..][0] == lines[i] && lines[i..][1..] == lines[i + 1..];
  }

  lemma NoTexts(b: Buffer)
    ensures RecordTexts(b, []) == []
  {}

  method StripComment(line: string) returns (r: string)
    ensures r == Strip(line)
  {
    hide Next;
    var s := CLEAN;
    for i := 0 to |line|
      invariant s == After(CLEAN, line[..i])
      invariant CommentStart(line, 0) == CommentStart(line, i)
    {
      assert line[..i + 1][..i] == line[..i];
      if s == CLEAN && line[i] == ';' { return line[..i]; }
      s := Next(s, line[i]);
    }
    return line;
  }

  method ParenthesisBalance(line: string) returns (balance: int)
    ensures balance == Balance(CLEAN, line)
  {
    hide Next;
    balance := 0;
    var s := CLEAN;
    for i := 0 to |line|
      invariant s == After(CLEAN, line[..i]) && balance == Balance(CLEAN, line[..i])
    {
      assert line[..i + 1][..i] == line[..i];
      if s == CLEAN && line[i] == '(' { balance := balance + 1; }
      if s == CLEAN && line[i] == ')' { balance := balance - 1; }
      s := Next(s, line[i]);
    }
    assert line[..|line|] == line;
  }

  lemma QuoteAndEscapeShow()
    ensures !IsWhitespace('\\') && !IsWhitespace('"')
  {}

  method TokenizeLine(line: string) returns (tokens: seq<string>)
    ensures tokens == Tokens(line)
  {
    QuoteAndEscapeShow();
    hide IsWhitespace;
    tokens := [];
    var current, quoted, escaped := "", false, false;
    for i := 0 to |line|
      invariant Fields(tokens, current, Scan(quoted, escaped)) == Scanned(START, line[..i])
    {
      assert line[..i + 1][..i] == line[..i];
      var c := line[i];
      if escaped {
        current := current + [c];
        escaped := false;
        continue;
      }
      if c == '\\' {
        current := current + [c];
        escaped := true;
      } else if c == '"' {
        current := current + [c];
        quoted := !quoted;
      } else if (c == '(' || c == ')' || IsWhitespace(c)) && !quoted {
        if current != "" {
          tokens := tokens + [current];
          current := "";
        }
      } else {
        current := current + [c];
      }
    }
    assert line[..|line|] == line;
    if current != "" { tokens := tokens + [current]; }
  }

  // Laying a record out over lines

  /** The character at `i` stands outside quotes and escapes. */
  predicate Bare(w: string, i: nat)
    requires i < |w|
  {
    After(CLEAN, w[..i]) == CLEAN
  }

  predicate BareOk(w: string) {
    forall i :: 0 <= i < |w| && Bare(w, i) ==> !Separates(w[i]) && w[i] != ';'
  }

  /** A field as it may stand in a zone file: it closes its quotes and hides blanks, parentheses and `;`. */
  predicate Word(w: string) {
    w != "" && After(CLEAN, w) == CLEAN && BareOk(w)
  }

  datatype Piece = Gap(blank: char) | Open | Close | Text(word: string)

  function PieceText(p: Piece): string {
    match p
    case Gap(c) => [c]
    case Open => "("
    case Close => ")"
    case Text(w) => w
  }

  function PiecesText(ps: seq<Piece>): string {
    if ps == [] then "" else PiecesText(ps[..|ps| - 1]) + PieceText(ps[|ps| - 1])
  }

  function Words(ps: seq<Piece>): seq<string> {
    if ps == [] then []
    else Words(ps[..|ps| - 1]) + if ps[|ps| - 1].Text? then [ps[|ps| - 1].word] else []
  }

  function Opens(ps: seq<Piece>): int {
    if ps == [] then 0
    else Opens(ps[..|ps| - 1]) + (if ps[|ps| - 1].Open? then 1 else if ps[|ps| - 1].Close? then -1 else 0)
  }

  predicate PieceOk(p: Piece) {
    match p
    case Gap(c) => IsWhitespace(c)
    case Text(w) => Word(w)
    case _ => true
  }

  /** Words are words, gaps are blanks, and no two words touch. */
  predicate LineOk(ps: seq<Piece>) {
    && (forall i :: 0 <= i < |ps| ==> PieceOk(ps[i]))
    && (forall i :: 0 < i < |ps| && ps[i].Text? ==> !ps[i - 1].Text?)
  }

  datatype Line = Line(pieces: seq<Piece>, comment: Option<string>)

  function LineText(l: Line): string {
    PiecesText(l.pieces) + if l.comment.Some? then ";" + l.comment.value else ""
  }

  lemma LineOkInit(ps: seq<Piece>)
    requires LineOk(ps) && ps != []
    ensures LineOk(ps[..|ps| - 1]) && PieceOk(ps[|ps| - 1])
    ensures ps[|ps| - 1].Text? && |ps| > 1 ==> !ps[|ps| - 2].Text?
  {
    hide PieceOk;
  }

  lemma {:induction false} WordScans(ts: seq<string>, w: string, n: nat)
    requires n <= |w| && BareOk(w)
    ensures Scanned(Fields(ts, "", CLEAN), w[..n]) == Fields(ts, w[..n], After(CLEAN, w[..n]))
  {
    hide Separates, Next;
    if n > 0 {
      WordScans(ts, w, n - 1);
      assert w[..n][..n - 1] == w[..n - 1];
      assert Bare(w, n - 1) <==> After(CLEAN, w[..n - 1]) == CLEAN;
    } else {
      assert w[..0] == "";
    }
  }

  lemma WordFields(ts: seq<string>, w: string)
    requires Word(w)
    ensures Scanned(Fields(ts, "", CLEAN), w) == Fields(ts, w, CLEAN)
  {
    WordScans(ts, w, |w|);
    assert w[..|w|] == w;
  }

  lemma GapScans(f: Fields, p: Piece)
    requires PieceOk(p) && !p.Text? && f.scan == CLEAN
    ensures Scanned(f, PieceText(p)) == Flushed(f)
  {
    hide IsWhitespace;
    OneMore(f, PieceText(p)[0]);
  }

  /** The fields after a laid-out line: all words, the last one still open when it ends the line. */
  lemma {:induction false} LineScans(ps: seq<Piece>)
    requires LineOk(ps)
    ensures var f := Scanned(START, PiecesText(ps));
            && f.scan == CLEAN && Flushed(f).done == Words(ps)
            && (ps != [] && !ps[|ps| - 1].Text? ==> f.current == "") && (ps == [] ==> f == START)
  {
    hide Scanned, PieceOk, LineOk, Word;
    if ps == [] {
      assert Scanned(START, "") == START by { NothingScanned(START); }
    } else {
      var init, p := ps[..|ps| - 1], ps[|ps| - 1];
      LineOkInit(ps);
      LineScans(init);
      ScannedConcat(START, PiecesText(init), PieceText(p));
      var f := Scanned(START, PiecesText(init));
      if p.Text? {
        assert init != [] ==> init[|init| - 1] == ps[|ps| - 2];
        assert Word(p.word) by { TextIsWord(p); }
        WordFields(f.done, p.word);
        WordNotEmpty(p.word);
        assert f == Fields(f.done, "", CLEAN);
      } else {
        GapScans(f, p);
      }
    }
  }

  lemma NothingScanned(f: Fields)
    ensures Scanned(f, "") == f
  {}

  lemma TextIsWord(p: Piece)
    requires p.Text? && PieceOk(p)
    ensures Word(p.word)
  {}

  lemma WordNotEmpty(w: string)
    requires Word(w)
    ensures w != "" && w[|w| - 1..] != ""
  {}

  lemma LineTokens(ps: seq<Piece>)
    requires LineOk(ps)
    ensures Tokens(PiecesText(ps)) == Words(ps) && After(CLEAN, PiecesText(ps)) == CLEAN
  {
    hide Scanned, LineOk, After;
    LineScans(ps);
    ScannersAgree(START, PiecesText(ps));
  }

  // Comments and parentheses of a laid-out line

  predicate NoComment(line: string) {
    forall i :: 0 <= i < |line| ==> !StartsComment(line, i)
  }

  lemma NoCommentConcat(a: string, b: string)
    requires NoComment(a) && NoComment(b) && After(CLEAN, a) == CLEAN
    ensures NoComment(a + b)
  {
    hide After;
    forall i | 0 <= i < |a + b| ensures !StartsComment(a + b, i) {
      if i < |a| {
        assert (a + b)[..i] == a[..i];
        assert !StartsComment(a, i);
      } else {
        assert (a + b)[..i] == a + b[..i - |a|];
        AfterConcat(CLEAN, a, b[..i - |a|]);
        assert !StartsComment(b, i - |a|);
      }
    }
  }

  lemma {:induction false} BalanceConcat(s: Scan, a: string, b: string)
    ensures Balance(s, a + b) == Balance(s, a) + Balance(After(s, a), b)
  {
    hide Next;
    if b == [] {
      assert a + b == a;
    } else {
      var init := b[..|b| - 1];
      BalanceConcat(s, a, init);
      AfterConcat(s, a, init);
      assert (a + b)[..|a + b| - 1] == a + init;
    }
  }

  lemma {:induction false} WordBalance(w: string, n: nat)
    requires n <= |w| && BareOk(w)
    ensures Balance(CLEAN, w[..n]) == 0
  {
    hide Next, IsWhitespace;
    if n > 0 {
      WordBalance(w, n - 1);
      assert w[..n][..n - 1] == w[..n - 1];
      assert Bare(w, n - 1) <==> After(CLEAN, w[..n - 1]) == CLEAN;
    }
  }

  lemma PieceScans(p: Piece)
    requires PieceOk(p)
    ensures NoComment(PieceText(p))
    ensures Balance(CLEAN, PieceText(p)) == if p.Open? then 1 else if p.Close? then -1 else 0
  {
    match p
    case Text(w) =>
      hide IsWhitespace, Next;
      WordBalance(w, |w|);
      assert w[..|w|] == w;
      forall i | 0 <= i < |w| ensures !StartsComment(w, i) {
        assert Bare(w, i) <==> After(CLEAN, w[..i]) == CLEAN;
      }
    case _ =>
      var t := PieceText(p);
      assert t[..0] == "";
      assert Balance(CLEAN, t[..0]) == 0 && After(CLEAN, t[..0]) == CLEAN;
      forall i | 0 <= i < |t| ensures !StartsComment(t, i) {}
  }

  lemma {:induction false} LineBalance(ps: seq<Piece>)
    requires LineOk(ps)
    ensures NoComment(PiecesText(ps)) && Balance(CLEAN, PiecesText(ps)) == Opens(ps)
  {
    hide PieceOk, LineOk, After, NoComment, Balance;
    if ps == [] {
      assert NoComment("") && Balance(CLEAN, "") == 0 by { NothingBalanced(); }
    } else {
      var init, p := ps[..|ps| - 1], ps[|ps| - 1];
      LineOkInit(ps);
      LineBalance(init);
      LineTokens(init);
      PieceScans(p);
      NoCommentConcat(PiecesText(init), PieceText(p));
      BalanceConcat(CLEAN, PiecesText(init), PieceText(p));
    }
  }

  lemma NothingBalanced()
    ensures NoComment("") && Balance(CLEAN, "") == 0
  {}

  /** Stripping a laid-out line takes the comment off and nothing else, whatever the comment says. */
  lemma StripTakesComment(l: Line)
    requires LineOk(l.pieces)
    ensures Strip(LineText(l)) == PiecesText(l.pieces)
  {
    hide LineOk, After, PiecesText;
    var t, all := PiecesText(l.pieces), LineText(l);
    LineBalance(l.pieces);
    LineTokens(l.pieces);
    forall i | 0 <= i < |t| ensures !StartsComment(all, i) {
      assert all[..i] == t[..i] && all[i] == t[i];
      assert !StartsComment(t, i);
    }
    if l.comment.Some? {
      assert all[..|t|] == t;
      assert StartsComment(all, |t|);
    }
    assert all[..|t|] == t;
  }

  // A record over several lines

  /** What the buffer holds after these lines. */
  function Buffered(lines: seq<Line>): string {
    if lines == [] then "" else Buffered(lines[..|lines| - 1]) + PiecesText(lines[|lines| - 1].pieces) + " "
  }

  function AllWords(lines: seq<Line>): seq<string> {
    if lines == [] then [] else AllWords(lines[..|lines| - 1]) + Words(lines[|lines| - 1].pieces)
  }

  function AllOpens(lines: seq<Line>): int {
    if lines == [] then 0 else AllOpens(lines[..|lines| - 1]) + Opens(lines[|lines| - 1].pieces)
  }

  predicate LinesOk(lines: seq<Line>) {
    forall i :: 0 <= i < |lines| ==> LineOk(lines[i].pieces)
  }

  /** Parentheses are open after every line. */
  predicate StaysOpen(lines: seq<Line>) {
    LinesOk(lines) && forall k :: 0 < k <= |lines| ==> AllOpens(lines[..k]) > 0
  }

  /** A line with nothing but blanks and a comment. */
  predicate BlankLine(l: Line) {
    LineOk(l.pieces) && Blank(PiecesText(l.pieces))
  }

  /** Parentheses stay open until the last line and are closed by it; the first line is not blank. */
  predicate OneRecord(lines: seq<Line>) {
    && lines != [] && LinesOk(lines) && StaysOpen(lines[..|lines| - 1])
    && AllOpens(lines) <= 0 && !BlankLine(lines[0])
  }

  lemma {:induction false} BufferedScans(lines: seq<Line>)
    requires LinesOk(lines)
    ensures Scanned(START, Buffered(lines)) == Fields(AllWords(lines), "", CLEAN)
  {
    hide Scanned, LineOk, After, Tokens, PiecesText, Words;
    if lines == [] {
      NothingScanned(START);
    } else {
      var init, last := lines[..|lines| - 1], lines[|lines| - 1];
      BufferedScans(init);
      LineTokens(last.pieces);
      var text := PiecesText(last.pieces);
      assert Buffered(lines) == Buffered(init) + (text + " ");
      ScannedConcat(START, Buffered(init), text + " ");
      LineThenBlank(AllWords(init), text);
    }
  }

  lemma {:induction false} BlankHasNoWords(ps: seq<Piece>)
    requires LineOk(ps) && Blank(PiecesText(ps))
    ensures Words(ps) == [] && Opens(ps) == 0
  {
    hide IsWhitespace, LineOk, PieceOk;
    if ps != [] {
      var init, p := ps[..|ps| - 1], ps[|ps| - 1];
      LineOkInit(ps);
      var a, b := PiecesText(init), PieceText(p);
      assert forall i :: 0 <= i < |a| ==> a[i] == (a + b)[i];
      assert forall i :: 0 <= i < |b| ==> b[i] == (a + b)[|a| + i];
      BlankHasNoWords(init);
      if !p.Gap? { PieceNotBlank(p); }
    }
  }

  lemma PieceNotBlank(p: Piece)
    requires PieceOk(p) && !p.Gap?
    ensures PieceText(p) != "" && !IsWhitespace(PieceText(p)[0])
  {
    if p.Text? {
      var w := p.word;
      assert w[..0] == "" && After(CLEAN, "") == CLEAN;
      assert Bare(w, 0);
    }
  }

  /** Lines that leave parentheses open are held in the buffer. */
  lemma {:induction false} OpenLinesWait(lines: seq<Line>, rest: seq<string>)
    requires StaysOpen(lines)
    ensures RecordTexts(EMPTY, LineTexts(lines) + rest)
            == RecordTexts(Buffer(Buffered(lines), AllOpens(lines)), rest)
  {
    hide LineOk, PiecesText, LineText, Feed, RecordTexts, Words, Opens, LinesOk;
    if lines == [] {
      assert LineTexts(lines) + rest == rest;
    } else {
      var init, last := lines[..|lines| - 1], lines[|lines| - 1];
      assert lines[..|lines|] == lines && init + [last] == lines;
      OpenInit(lines);
      OpenLinesWait(init, [LineText(last)] + rest);
      assert LineTexts(lines) + rest == LineTexts(init) + ([LineText(last)] + rest);
      FeedsLine(init, last);
      FirstText(Buffer(Buffered(init), AllOpens(init)), LineText(last), rest);
    }
  }

  lemma OpenInit(lines: seq<Line>)
    requires StaysOpen(lines) && lines != []
    ensures StaysOpen(lines[..|lines| - 1]) && LineOk(lines[|lines| - 1].pieces)
    ensures |lines| == 1 ==> !BlankLine(lines[0])
  {
    hide LineOk, PiecesText, Words, Opens, Blank;
    var init := lines[..|lines| - 1];
    forall k | 0 < k <= |init| ensures AllOpens(init[..k]) > 0 {
      assert init[..k] == lines[..k];
    }
    if |lines| == 1 && BlankLine(lines[0]) {
      assert lines[..1] == lines == [lines[0]];
      OneLineOpens(lines[0]);
      BlankHasNoWords(lines[0].pieces);
    }
  }

  lemma OneLineOpens(l: Line)
    ensures AllOpens([l]) == Opens(l.pieces)
  {
    assert [l][..0] == [];
  }

  /** The line that closes the parentheses completes the record. */
  lemma RecordCompletes(lines: seq<Line>, rest: seq<string>)
    requires OneRecord(lines)
    ensures RecordTexts(EMPTY, LineTexts(lines) + rest) == [Buffered(lines)] + RecordTexts(EMPTY, rest)
  {
    hide LineOk, PiecesText, LineText, Feed, RecordTexts, Words, Opens, StaysOpen;
    var init, last := lines[..|lines| - 1], lines[|lines| - 1];
    assert init + [last] == lines;
    OpenLinesWait(init, [LineText(last)] + rest);
    assert LineTexts(lines) + rest == LineTexts(init) + ([LineText(last)] + rest);
    FeedsLine(init, last);
    FirstText(Buffer(Buffered(init), AllOpens(init)), LineText(last), rest);
  }

  /** A blank line between records leaves no trace. */
  lemma BlankLineSkipped(l: Line, rest: seq<string>)
    requires BlankLine(l)
    ensures RecordTexts(EMPTY, [LineText(l)] + rest) == RecordTexts(EMPTY, rest)
  {
    hide LineOk, PiecesText, LineText, Strip, Balance, Trim, Blank, RecordTexts;
    StripTakesComment(l);
    TrimBlank(PiecesText(l.pieces));
    FirstText(EMPTY, LineText(l), rest);
  }

  function LineTexts(lines: seq<Line>): (r: seq<string>)
    ensures |r| == |lines| && forall i :: 0 <= i < |r| ==> r[i] == LineText(lines[i])
  {
    seq(|lines|, i requires 0 <= i < |lines| => LineText(lines[i]))
  }

  lemma FirstText(b: Buffer, line: string, rest: seq<string>)
    ensures RecordTexts(b, [line] + rest)
            == (if Feed(b, line).1.Some? then [Feed(b, line).1.value] else []) + RecordTexts(Feed(b, line).0, rest)
  {
    hide Feed;
    assert ([line] + rest)[1..] == rest;
  }

  lemma FeedsLine(lines: seq<Line>, l: Line)
    requires LineOk(l.pieces) && (lines == [] ==> !BlankLine(l))
    ensures var all := lines + [l];
            Feed(Buffer(Buffered(lines), AllOpens(lines)), LineText(l))
            == if AllOpens(all) > 0 then (Buffer(Buffered(all), AllOpens(all)), None) else (EMPTY, Some(Buffered(all)))
  {
    hide LineOk, PiecesText, LineText, Words, Opens, Strip, Balance, Trim;
    StripTakesComment(l);
    LineBalance(l.pieces);
    TrimBlank(PiecesText(l.pieces));
    assert (lines + [l])[..|lines|] == lines;
  }

  /**
   A record laid out over lines, with any blanks, parentheses and comments, is buffered into
   one text; splitting it gives the words back exactly when trimming does not cut an escape.
   */
  lemma RecordReadsBackExactly(lines: seq<Line>)
    requires OneRecord(lines)
    ensures RecordTexts(EMPTY, LineTexts(lines)) == [Buffered(lines)]
    ensures Tokens(Trim(Buffered(lines))) == AllWords(lines) <==> !EndsMidEscape(TrimLeft(Buffered(lines)))
  {
    hide RecordTexts, Buffered, Scanned, After, Trim, EndsMidEscape, LinesOk;
    RecordCompletes(lines, []);
    assert LineTexts(lines) + [] == LineTexts(lines);
    NoTexts(EMPTY);
    assert [Buffered(lines)] + [] == [Buffered(lines)];
    BufferedScans(lines);
    ScannersAgree(START, Buffered(lines));
    TrimKeepsFieldsExactly(Buffered(lines));
  }

  // A whole file

  /** What a file is made of: blank lines, and records over lines. */
  datatype Block = Idle(line: Line) | Entry(lines: seq<Line>)

  predicate BlockOk(b: Block) {
    if b.Idle? then BlankLine(b.line) else OneRecord(b.lines)
  }

  function BlockLines(b: Block): seq<Line> {
    if b.Idle? then [b.line] else b.lines
  }

  function FileLines(blocks: seq<Block>): seq<Line> {
    if blocks == [] then [] else FileLines(blocks[..|blocks| - 1]) + BlockLines(blocks[|blocks| - 1])
  }

  function Entries(blocks: seq<Block>): seq<seq<Line>> {
    if blocks == [] then []
    else Entries(blocks[..|blocks| - 1]) + if blocks[|blocks| - 1].Entry? then [blocks[|blocks| - 1].lines] else []
  }

  function EntryTexts(entries: seq<seq<Line>>): (r: seq<string>)
    ensures |r| == |entries| && forall i :: 0 <= i < |r| ==> r[i] == Buffered(entries[i])
  {
    seq(|entries|, i requires 0 <= i < |entries| => Buffered(entries[i]))
  }

  predicate BlocksOk(blocks: seq<Block>) {
    forall i :: 0 <= i < |blocks| ==> BlockOk(blocks[i])
  }

  lemma BlockFeeds(b: Block, rest: seq<string>)
    requires BlockOk(b)
    ensures RecordTexts(EMPTY, LineTexts(BlockLines(b)) + rest)
            == (if b.Entry? then [Buffered(b.lines)] else []) + RecordTexts(EMPTY, rest)
  {
    hide LineText, RecordTexts, Buffered;
    if b.Idle? {
      assert LineTexts([b.line]) + rest == [LineText(b.line)] + rest;
      BlankLineSkipped(b.line, rest);
    } else {
      RecordCompletes(b.lines, rest);
    }
  }

  lemma {:induction false} BlocksFeed(blocks: seq<Block>, rest: seq<string>)
    requires BlocksOk(blocks)
    ensures RecordTexts(EMPTY, LineTexts(FileLines(blocks)) + rest)
            == EntryTexts(Entries(blocks)) + RecordTexts(EMPTY, rest)
  {
    hide RecordTexts, Buffered, LineText, BlockLines, BlockOk;
    if blocks == [] {
      assert LineTexts([]) + rest == rest;
    } else {
      var init, last := blocks[..|blocks| - 1], blocks[|blocks| - 1];
      BlocksFeed(init, LineTexts(BlockLines(last)) + rest);
      assert LineTexts(FileLines(blocks)) + rest
          == LineTexts(FileLines(init)) + (LineTexts(BlockLines(last)) + rest);
      BlockFeeds(last, rest);
      var text := if last.Entry? then [Buffered(last.lines)] else [];
      assert EntryTexts(Entries(blocks)) == EntryTexts(Entries(init)) + text;
      assert EntryTexts(Entries(init)) + (text + RecordTexts(EMPTY, rest))
          == EntryTexts(Entries(init)) + text + RecordTexts(EMPTY, rest);
    }
  }

  lemma {:induction false} EntriesAreRecords(blocks: seq<Block>, i: nat)
    requires BlocksOk(blocks) && i < |Entries(blocks)|
    ensures OneRecord(Entries(blocks)[i])
  {
    hide OneRecord, BlankLine;
    if blocks != [] {
      var init := blocks[..|blocks| - 1];
      assert BlockOk(blocks[|blocks| - 1]);
      if i < |Entries(init)| { EntriesAreRecords(init, i); }
    }
  }

  /**
   A file of records with blank lines and comments between them, ending in lines whose
   parentheses never close: each record becomes one text in turn, the unfinished lines are
   dropped, and each text splits into the words laid out exactly when trimming it does not cut
   an escape.
   */
  lemma FileReadsBackExactly(blocks: seq<Block>, unfinished: seq<Line>)
    requires BlocksOk(blocks) && StaysOpen(unfinished)
    ensures var texts := RecordTexts(EMPTY, LineTexts(FileLines(blocks) + unfinished));
            && texts == EntryTexts(Entries(blocks))
            && forall i :: 0 <= i < |texts| ==>
                 (Tokens(Trim(texts[i])) == AllWords(Entries(blocks)[i]) <==> !EndsMidEscape(TrimLeft(texts[i])))
  {
    hide RecordTexts, Buffered, LineText, Trim, TrimLeft, EndsMidEscape, Tokens, AllWords, BlocksOk, StaysOpen;
    hide OneRecord;
    var entries := Entries(blocks);
    BlocksFeed(blocks, LineTexts(unfinished));
    assert LineTexts(FileLines(blocks) + unfinished) == LineTexts(FileLines(blocks)) + LineTexts(unfinished);
    OpenLinesWait(unfinished, []);
    assert LineTexts(unfinished) + [] == LineTexts(unfinished);
    NoTexts(Buffer(Buffered(unfinished), AllOpens(unfinished)));
    assert EntryTexts(entries) + [] == EntryTexts(entries);
    forall i | 0 <= i < |entries|
      ensures Tokens(Trim(Buffered(entries[i]))) == AllWords(entries[i])
          <==> !EndsMidEscape(TrimLeft(Buffered(entries[i])))
    {
      EntriesAreRecords(blocks, i);
      RecordReadsBackExactly(entries[i]);
    }
  }

  /** Every file of laid-out lines is of that form. */
  lemma {:induction false} EveryFileIsBlocks(lines: seq<Line>) returns (blocks: seq<Block>, unfinished: seq<Line>)
    requires LinesOk(lines)
    ensures BlocksOk(blocks) && StaysOpen(unfinished) && lines == FileLines(blocks) + unfinished
  {
    hide LineOk, PiecesText, Opens, Blank;
    if lines == [] {
      return [], [];
    }
    var last := lines[|lines| - 1];
    var before, open := EveryFileIsBlocks(lines[..|lines| - 1]);
    assert lines == lines[..|lines| - 1] + [last];
    var all := open + [last];
    assert all[..|open|] == open;
    if open == [] && BlankLine(last) {
      blocks, unfinished := before + [Idle(last)], [];
      BlocksGrow(before, Idle(last));
    } else if AllOpens(all) > 0 {
      blocks, unfinished := before, all;
      OpenGrows(open, last);
    } else {
      blocks, unfinished := before + [Entry(all)], [];
      RecordCloses(open, last);
      BlocksGrow(before, Entry(all));
    }
  }

  lemma BlocksGrow(blocks: seq<Block>, b: Block)
    requires BlocksOk(blocks) && BlockOk(b)
    ensures BlocksOk(blocks + [b]) && FileLines(blocks + [b]) == FileLines(blocks) + BlockLines(b)
  {
    hide BlockOk, BlockLines;
    assert (blocks + [b])[..|blocks|] == blocks;
  }

  lemma RecordCloses(open: seq<Line>, l: Line)
    requires StaysOpen(open) && LineOk(l.pieces) && AllOpens(open + [l]) <= 0
    requires open == [] ==> !BlankLine(l)
    ensures OneRecord(open + [l])
  {
    hide LineOk, PiecesText, Blank;
    assert (open + [l])[..|open|] == open;
    if open != [] {
      assert open[..1] == [open[0]] && AllOpens(open[..1]) > 0;
      OneLineOpens(open[0]);
      if BlankLine(open[0]) { BlankHasNoWords(open[0].pieces); }
    }
  }

  lemma OpenGrows(lines: seq<Line>, l: Line)
    requires StaysOpen(lines) && LineOk(l.pieces) && AllOpens(lines + [l]) > 0
    ensures StaysOpen(lines + [l])
  {
    hide LineOk, AllOpens;
    var all := lines + [l];
    forall k | 0 < k <= |all| ensures AllOpens(all[..k]) > 0 {
      if k == |all| {
        assert all[..k] == all;
      } else {
        assert all[..k] == lines[..k];
      }
    }
  }

  predicate EndsBlank(w: string) {
    w != "" && IsWhitespace(w[|w| - 1])
  }

  lemma CutTokenEndsBlank(s: string)
    requires After(CLEAN, s) == CLEAN && EndsMidEscape(s)
    ensures var ts := Tokens(s); ts != [] && EndsBlank(ts[|ts| - 1])
  {
    hide Scanned, After, TrimRight, IsWhitespace, EndsMidEscape;
    TrimRightEffect(s);
    var f := Scanned(START, TrimRight(s));
    var w :| IsWhitespace(w) && Tokens(s) == f.done + [f.current + [w]];
    assert (f.current + [w])[|f.current|] == w;
  }

  /** In particular when no word ends in an escaped blank. */
  lemma RecordReadsBack(lines: seq<Line>)
    requires OneRecord(lines) && forall i :: 0 <= i < |AllWords(lines)| ==> !EndsBlank(AllWords(lines)[i])
    ensures Tokens(Trim(Buffered(lines))) == AllWords(lines)
  {
    hide RecordTexts, Buffered, Scanned, After, TrimLeft, TrimRight, LinesOk, IsWhitespace, EndsMidEscape, AllWords;
    hide EndsBlank;
    RecordReadsBackExactly(lines);
    var text := TrimLeft(Buffered(lines));
    BufferedScans(lines);
    ScannersAgree(START, Buffered(lines));
    TrimLeftHarmless(Buffered(lines));
    if EndsMidEscape(text) { CutTokenEndsBlank(text); }
  }

  const ESCAPED_BLANK: string := ['a', '\\', ' ']
  const CUT: string := ['a', '\\']

  lemma EscapedBlankScans()
    ensures After(CLEAN, ['a']) == CLEAN && After(CLEAN, CUT) == Scan(false, true) && After(CLEAN, ESCAPED_BLANK)
        == CLEAN
  {
    AfterOne(CLEAN, 'a');
    assert CUT[..1] == ['a'] && ESCAPED_BLANK[..2] == CUT;
  }

  lemma EscapedBlankIsWord()
    ensures Word(ESCAPED_BLANK) && Tokens(CUT) == [CUT]
  {
    EscapedBlankScans();
    var w := ESCAPED_BLANK;
    assert w[..0] == [] && w[..1] == ['a'] && w[..2] == CUT;
    forall i | 0 <= i < |w| && Bare(w, i) ensures !Separates(w[i]) && w[i] != ';' {
      assert i < 2;
    }
    assert BareOk(CUT) by {
      assert CUT[..0] == [] && CUT[..1] == ['a'];
    }
    WordScans([], CUT, 2);
    assert CUT[..2] == CUT;
  }

  lemma EscapedBlankTrims()
    ensures Trim(ESCAPED_BLANK + " ") == CUT
  {
    var text := ESCAPED_BLANK + " ";
    assert TrimLeft(text) == text;
    assert text[..3] == ESCAPED_BLANK && ESCAPED_BLANK[..2] == CUT;
    assert TrimRight(CUT) == CUT;
    assert TrimRight(ESCAPED_BLANK) == CUT;
  }

  /** `a\ ` alone on a line comes back as `a\`: trimming takes the blank the escape was for. */
  lemma EscapedBlankIsLost()
    ensures var l := Line([Text(ESCAPED_BLANK)], None);
            OneRecord([l]) && AllWords([l]) == [ESCAPED_BLANK] && Tokens(Trim(Buffered([l]))) == [CUT]
  {
    hide Word, Tokens, Trim;
    EscapedBlankIsWord();
    EscapedBlankTrims();
    var ps := [Text(ESCAPED_BLANK)];
    var lines := [Line(ps, None)];
    assert ps[..0] == [] && lines[..0] == [];
    assert PiecesText(ps) == "" + ESCAPED_BLANK && Words(ps) == [] + [ESCAPED_BLANK] && Opens(ps) == 0;
    assert AllWords(lines) == [] + Words(ps) && AllOpens(lines) == 0;
    assert PiecesText(ps) == ESCAPED_BLANK;
    assert !IsWhitespace(ESCAPED_BLANK[0]) && !Blank(ESCAPED_BLANK);
    assert Buffered(lines) == "" + PiecesText(ps) + " ";
    assert Buffered(lines) == ESCAPED_BLANK + " ";
    assert Tokens(Trim(Buffered(lines))) == [CUT];
  }

  // What splitting yields

  predicate AllAreWords(ts: seq<string>) {
    forall i :: 0 <= i < |ts| ==> Word(ts[i])
  }

  lemma WordGrows(w: string, c: char)
    requires BareOk(w) && (After(CLEAN, w) == CLEAN ==> !Separates(c) && c != ';')
    ensures BareOk(w + [c]) && After(CLEAN, w + [c]) == Next(After(CLEAN, w), c)
  {
    hide Separates, Next;
    var v := w + [c];
    assert v[..|w|] == w;
    forall i | 0 <= i < |v| && Bare(v, i) ensures !Separates(v[i]) && v[i] != ';' {
      if i < |w| {
        assert v[..i] == w[..i];
        assert Bare(w, i);
      }
    }
  }

  lemma {:induction false} FieldsAreWords(line: string)
    requires NoComment(line)
    ensures var f := Scanned(START, line);
            AllAreWords(f.done) && BareOk(f.current) && After(CLEAN, f.current) == f.scan
  {
    hide Separates, Next, Word, BareOk;
    if line == [] {
      assert BareOk("") by { NothingBare(); }
    } else {
      var init, c := line[..|line| - 1], line[|line| - 1];
      forall i | 0 <= i < |init| ensures !StartsComment(init, i) {
        assert line[..i] == init[..i];
        assert !StartsComment(line, i);
      }
      FieldsAreWords(init);
      var f := Scanned(START, init);
      ScannersAgree(START, init);
      assert !StartsComment(line, |init|);
      if f.scan == CLEAN && Separates(c) {
        if f.current != "" { assert Word(f.current) by { CurrentIsWord(f.current); } }
        NothingBare();
      } else {
        WordGrows(f.current, c);
      }
    }
  }

  lemma NothingBare()
    ensures BareOk("") && After(CLEAN, "") == CLEAN
  {}

  lemma CurrentIsWord(w: string)
    requires w != "" && BareOk(w) && After(CLEAN, w) == CLEAN
    ensures Word(w)
  {}

  /** Splitting any comment-free line that closes its quotes yields words: the layouts above miss nothing. */
  lemma TokensAreWords(line: string)
    requires NoComment(line) && After(CLEAN, line) == CLEAN
    ensures AllAreWords(Tokens(line))
  {
    hide Scanned, After, Word, BareOk, NoComment;
    FieldsAreWords(line);
    ScannersAgree(START, line);
    var f := Scanned(START, line);
    if f.current != "" { CurrentIsWord(f.current); }
  }
}
