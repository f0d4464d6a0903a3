/** The code-sample highlighter and console-line formatter of the Examples
    section: `tokenizeLine`, `highlightSyntax` and `formatLogLine`.
    Tokens are (kind, text) pairs instead of styled spans. */
module Examples {
  import opened Strings

  datatype TokenKind = Keyword | Decorator | StringLit | Tag | Comment | Plain

  datatype Token = Token(kind: TokenKind, text: string)

  /** The nineteen words the highlighter colours as keywords. */
  const Keywords: set<string> := {
    "import", "from", "export", "default", "const", "let", "var",
    "function", "class", "extends", "return", "async", "await",
    "if", "else", "new", "this", "true", "false"
  }

  /** The text the tokens spell, in order. */
  function Concat(tokens: seq<Token>): string {
    if tokens == [] then "" else Concat(tokens[..|tokens| - 1]) + tokens[|tokens| - 1].text
  }

  predicate IsQuote(c: char) {
    c == '\'' || c == '"'
  }

  /** Characters that, outside a string literal, end the pending token and
      are emitted as a token of their own. */
  predicate IsDelimiter(c: char) {
    c == ' ' || c == '(' || c == ')' || c == '{' || c == '}' || c == ';' || c == ',' || c == ':'
  }

  /** Characters that, outside a string literal, only join the pending
      token (the default branch of the loop; `/` joins it on either path). */
  predicate Ordinary(c: char) {
    !IsQuote(c) && !IsDelimiter(c) && c != '<' && c != '>'
  }

  /** The kind a non-keyword token gets from its first character. */
  function LeadKind(c: char): TokenKind {
    if c == '@' then Decorator
    else if IsQuote(c) then StringLit
    else if c == '<' then Tag
    else Plain
  }

  /** The classification `pushCurrent` applies to a flushed buffer: keyword by
      set membership first, then by the leading character (the `</` test is
      subsumed by the `<` test). */
  function Classify(text: string): (k: TokenKind)
    ensures k == Keyword <==> text in Keywords
    ensures text !in Keywords && text != "" ==> k == LeadKind(text[0])
    ensures text == "" ==> k == Plain
    ensures k != Comment
  {
    if text in Keywords then Keyword
    else if StartsWith(text, "@") then Decorator
    else if StartsWith(text, "'") || StartsWith(text, "\"") then StringLit
    else if StartsWith(text, "<") || StartsWith(text, "</") then Tag
    else Plain
  }

  /** Every keyword starts with a lower-case letter, so a text whose first
      character is special is never a keyword. */
  lemma KeywordsLeadPlain(text: string)
    requires text != "" && LeadKind(text[0]) != Plain
    ensures text !in Keywords
  {
    assert forall w :: w in Keywords ==> |w| >= 2 && 'a' <= w[0] <= 'z';
  }

  /** A token as `tokenizeLine` emits it: non-empty and classified. */
  predicate WellFormed(t: Token) {
    t.text != "" && t.kind == Classify(t.text)
  }

  predicate AllWellFormed(tokens: seq<Token>) {
    forall k :: 0 <= k < |tokens| ==> WellFormed(tokens[k])
  }

  /** The scanner state of `tokenizeLine`: emitted tokens, the accumulation
      buffer, the in-string flag and the opening quote. */
  datatype LexState = LexState(tokens: seq<Token>, current: string, inString: bool, stringChar: string)

  const Start := LexState([], "", false, "")

  /** `pushCurrent`: emit the buffer as a classified token, if non-empty. */
  function PushCurrent(st: LexState): LexState {
    if st.current != "" then
      st.(tokens := st.tokens + [Token(Classify(st.current), st.current)], current := "")
    else st
  }

  /** The `line[i-1] === "<"` test of the loop (JavaScript's `line[-1]` is
      `undefined`, so it fails at index 0). */
  predicate AfterLt(line: string, i: nat)
    requires i <= |line|
  {
    i > 0 && line[i - 1] == '<'
  }

  /** One iteration of the character loop, reading `c`; `afterLt` says the
      previous character was `<`. */
  function Step(st: LexState, c: char, afterLt: bool): LexState {
    if st.inString then
      var st1 := st.(current := st.current + [c]);
      if [c] == st.stringChar then PushCurrent(st1.(inString := false)) else st1
    else if IsQuote(c) then
      PushCurrent(st).(inString := true, stringChar := [c], current := [c])
    else if IsDelimiter(c) then
      var st1 := PushCurrent(st);
      st1.(tokens := st1.tokens + [Token(Plain, [c])])
    else if c == '<' || (c == '/' && afterLt) then
      var st1 := if c == '<' then PushCurrent(st) else st;
      st1.(current := st1.current + [c])
    else if c == '>' then
      PushCurrent(st.(current := st.current + [c]))
    else
      st.(current := st.current + [c])
  }

  /** The scanner state after the first `n` characters of `line`. */
  function Scan(line: string, n: nat): LexState
    requires n <= |line|
    decreases n, 0
  {
    if n == 0 then Start else Next(line, n - 1)
  }

  /** The scanner state after reading `line[i]`. */
  function Next(line: string, i: nat): LexState
    requires i < |line|
    decreases i, 1
  {
    Step(Scan(line, i), line[i], AfterLt(line, i))
  }

  /** Index `i` of `line` is read while the scanner is inside a string literal. */
  predicate InString(line: string, i: nat)
    requires i <= |line|
  {
    Scan(line, i).inString
  }

  /** The tokens of `tokenizeLine(line)`: the loop, then a final flush. */
  function Tokenize(line: string): seq<Token> {
    PushCurrent(Scan(line, |line|)).tokens
  }

  /** `tokenizeLine` as the source runs it: a loop over the characters that
      updates the buffer, the string flag and the token list. */
  method TokenizeLine(line: string) returns (tokens: seq<Token>)
    ensures tokens == Tokenize(line)
    ensures Concat(tokens) == line
    ensures forall k :: 0 <= k < |tokens| ==> tokens[k].text != "" && tokens[k].kind == Classify(tokens[k].text)
  {
    tokens := [];
    var current := "";
    var inString := false;
    var stringChar := "";
    var i := 0;
    while i < |line|
      invariant 0 <= i <= |line|
      invariant LexState(tokens, current, inString, stringChar) == Scan(line, i)
    {
      var c := line[i];
      if inString {
        current := current + [c];
        if [c] == stringChar {
          inString := false;
          tokens, current := Flush(tokens, current);
        }
      } else if c == '\'' || c == '"' {
        tokens, current := Flush(tokens, current);
        inString := true;
        stringChar := [c];
        current := [c];
      } else if c == ' ' || c == '(' || c == ')' || c == '{' || c == '}' || c == ';' || c == ',' || c == ':' {
        tokens, current := Flush(tokens, current);
        tokens := tokens + [Token(Plain, [c])];
      } else if c == '<' || (c == '/' && i > 0 && line[i - 1] == '<') {
        if c == '<' {
          tokens, current := Flush(tokens, current);
        }
        current := current + [c];
      } else if c == '>' {
        current := current + [c];
        tokens, current := Flush(tokens, current);
      } else {
        current := current + [c];
      }
      i := i + 1;
    }
    tokens, current := Flush(tokens, current);
    TokenizeRoundTrip(line);
  }

  /** The `pushCurrent` closure, on the loop's variables. */
  method Flush(tokens: seq<Token>, current: string) returns (tokens': seq<Token>, current': string)
    ensures LexState(tokens', current', false, "") == PushCurrent(LexState(tokens, current, false, ""))
  {
    tokens', current' := tokens, current;
    if current != "" {
      tokens' := tokens + [Token(Classify(current), current)];
      current' := "";
    }
  }

  // ---------------------------------------------------------------------
  // Facts about the scanner

  lemma ConcatAppend(tokens: seq<Token>, t: Token)
    ensures Concat(tokens + [t]) == Concat(tokens) + t.text
  {
    assert (tokens + [t])[..|tokens|] == tokens;
  }

  /** Flushing keeps the spelled text, empties the buffer, only appends and
      leaves the string flag alone. */
  lemma PushCurrentFacts(st: LexState)
    ensures Concat(PushCurrent(st).tokens) == Concat(st.tokens) + st.current
    ensures PushCurrent(st).current == ""
    ensures st.tokens <= PushCurrent(st).tokens
    ensures PushCurrent(st).inString == st.inString && PushCurrent(st).stringChar == st.stringChar
  {
    if st.current != "" {
      ConcatAppend(st.tokens, Token(Classify(st.current), st.current));
    }
  }

  /** Flushing keeps every token well formed. */
  lemma PushWellFormed(st: LexState)
    requires AllWellFormed(st.tokens)
    ensures AllWellFormed(PushCurrent(st).tokens)
  {
    if st.current != "" {
      AppendWellFormed(st.tokens, Token(Classify(st.current), st.current));
    }
  }

  /** A one-character delimiter token is well formed and plain. */
  lemma DelimiterWellFormed(c: char)
    requires IsDelimiter(c)
    ensures WellFormed(Token(Plain, [c]))
  {
    assert [c] !in Keywords by {
      assert forall w :: w in Keywords ==> |w| >= 2;
    }
  }

  /** Appending a well-formed token keeps the list well formed. */
  lemma AppendWellFormed(tokens: seq<Token>, t: Token)
    requires AllWellFormed(tokens) && WellFormed(t)
    ensures AllWellFormed(tokens + [t])
  {
    assert forall k :: 0 <= k < |tokens| ==> (tokens + [t])[k] == tokens[k];
  }

  /** One step keeps `tokens + current` equal to the text read so far and
      only appends to the tokens. */
  lemma StepSpells(st: LexState, c: char, afterLt: bool)
    ensures Concat(Step(st, c, afterLt).tokens) + Step(st, c, afterLt).current == Concat(st.tokens) + st.current + [c]
    ensures st.tokens <= Step(st, c, afterLt).tokens
  {
    if st.inString {
      PushCurrentFacts(st.(current := st.current + [c], inString := false));
    } else if IsQuote(c) {
      PushCurrentFacts(st);
    } else if IsDelimiter(c) {
      var st1 := PushCurrent(st);
      PushCurrentFacts(st);
      assert Step(st, c, afterLt) == st1.(tokens := st1.tokens + [Token(Plain, [c])]);
      ConcatAppend(st1.tokens, Token(Plain, [c]));
    } else if c == '<' || (c == '/' && afterLt) {
      PushCurrentFacts(st);
    } else if c == '>' {
      PushCurrentFacts(st.(current := st.current + [c]));
    }
  }

  /** One step keeps the emitted tokens well formed. */
  lemma StepWellFormed(st: LexState, c: char, afterLt: bool)
    requires AllWellFormed(st.tokens)
    ensures AllWellFormed(Step(st, c, afterLt).tokens)
  {
    if st.inString {
      PushWellFormed(st.(current := st.current + [c], inString := false));
    } else if IsQuote(c) || c == '<' {
      PushWellFormed(st);
    } else if IsDelimiter(c) {
      var st1 := PushCurrent(st);
      PushWellFormed(st);
      assert Step(st, c, afterLt) == st1.(tokens := st1.tokens + [Token(Plain, [c])]);
      DelimiterWellFormed(c);
      AppendWellFormed(st1.tokens, Token(Plain, [c]));
    } else if c == '>' {
      PushWellFormed(st.(current := st.current + [c]));
    }
  }

  /** The step of one character, for each kind of character read outside a
      string literal and for a character read inside one. */
  lemma StepOutside(st: LexState, c: char, afterLt: bool)
    requires !st.inString
    ensures IsQuote(c) ==> Step(st, c, afterLt) == PushCurrent(st).(inString := true, stringChar := [c], current := [c])
    ensures IsDelimiter(c) ==> Step(st, c, afterLt) == PushCurrent(st).(tokens := PushCurrent(st).tokens + [Token(Plain, [c])])
    ensures c == '<' ==> Step(st, c, afterLt) == PushCurrent(st).(current := "<")
    ensures c == '>' ==> Step(st, c, afterLt) == PushCurrent(st.(current := st.current + ">"))
    ensures Ordinary(c) ==> Step(st, c, afterLt) == st.(current := st.current + [c])
  {
    PushCurrentFacts(st);
  }

  lemma StepInside(st: LexState, c: char, afterLt: bool)
    requires st.inString
    ensures [c] != st.stringChar ==> Step(st, c, afterLt) == st.(current := st.current + [c])
    ensures [c] == st.stringChar ==> Step(st, c, afterLt) == PushCurrent(st.(current := st.current + [c], inString := false))
  {
  }

  /** The definition of `Scan` for one more character: reading `line[i]`,
      and reading the `n`-th character. */
  lemma ScanStep(line: string, i: nat)
    requires i < |line|
    ensures Scan(line, i + 1) == Step(Scan(line, i), line[i], AfterLt(line, i))
  {
  }

  lemma ScanLast(line: string, n: nat)
    requires 0 < n <= |line|
    ensures Scan(line, n) == Step(Scan(line, n - 1), line[n - 1], AfterLt(line, n - 1))
  {
  }

  /** The scanner invariant: after `n` characters, the emitted tokens and the
      buffer together spell `line[..n]`, and every emitted token is well
      formed. */
  lemma ScanFacts(line: string, n: nat)
    requires n <= |line|
    ensures Concat(Scan(line, n).tokens) + Scan(line, n).current == line[..n]
    ensures AllWellFormed(Scan(line, n).tokens)
  {
    ScanSpells(line, n);
    ScanWellFormed(line, n);
  }

  lemma {:induction false} ScanSpells(line: string, n: nat)
    requires n <= |line|
    ensures Concat(Scan(line, n).tokens) + Scan(line, n).current == line[..n]
  {
    if n > 0 {
      ScanSpells(line, n - 1);
      ScanSpellsStep(line, n);
      assert line[..n] == line[..n - 1] + [line[n - 1]];
    }
  }

  lemma {:induction false} ScanWellFormed(line: string, n: nat)
    requires n <= |line|
    ensures AllWellFormed(Scan(line, n).tokens)
  {
    if n > 0 {
      ScanWellFormed(line, n - 1);
      ScanWellFormedStep(line, n);
    }
  }

  /** `StepSpells` and `StepWellFormed` for the step that reads the `n`-th
      character. */
  lemma ScanSpellsStep(line: string, n: nat)
    requires 0 < n <= |line|
    ensures Concat(Scan(line, n).tokens) + Scan(line, n).current == Concat(Scan(line, n - 1).tokens) + Scan(line, n - 1).current + [line[n - 1]]
    ensures Scan(line, n - 1).tokens <= Scan(line, n).tokens
  {
    StepSpells(Scan(line, n - 1), line[n - 1], AfterLt(line, n - 1));
  }

  lemma ScanWellFormedStep(line: string, n: nat)
    requires 0 < n <= |line| && AllWellFormed(Scan(line, n - 1).tokens)
    ensures AllWellFormed(Scan(line, n).tokens)
  {
    StepWellFormed(Scan(line, n - 1), line[n - 1], AfterLt(line, n - 1));
  }

  /** Tokens are only ever appended: the tokens emitted after `m` characters
      begin every later token list. */
  lemma {:induction false} ScanExtends(line: string, m: nat, n: nat)
    requires m <= n <= |line|
    ensures Scan(line, m).tokens <= Scan(line, n).tokens
  {
    if m < n {
      ScanExtends(line, m, n - 1);
      ScanSpellsStep(line, n);
      PrefixTrans(Scan(line, m).tokens, Scan(line, n - 1).tokens, Scan(line, n).tokens);
    }
  }

  lemma PrefixTrans(a: seq<Token>, b: seq<Token>, c: seq<Token>)
    requires a <= b && b <= c
    ensures a <= c
  {
    assert c[..|a|] == b[..|a|];
  }

  /** The tokens emitted after `m` characters begin the final token list. */
  lemma ScanPrefix(line: string, m: nat)
    requires m <= |line|
    ensures Scan(line, m).tokens <= Tokenize(line)
  {
    ScanExtends(line, m, |line|);
    PushCurrentFacts(Scan(line, |line|));
    PrefixTrans(Scan(line, m).tokens, Scan(line, |line|).tokens, Tokenize(line));
  }

  /** Round trip: the tokens of a line spell the line exactly, and every token
      is non-empty and carries the kind its text is classified as. */
  lemma TokenizeRoundTrip(line: string)
    ensures Concat(Tokenize(line)) == line
    ensures AllWellFormed(Tokenize(line))
  {
    ScanFacts(line, |line|);
    PushCurrentFacts(Scan(line, |line|));
    PushWellFormed(Scan(line, |line|));
    assert line[..|line|] == line;
  }

  lemma {:induction false} ConcatPrefix(tokens: seq<Token>, k: nat)
    requires k <= |tokens|
    ensures Concat(tokens[..k]) <= Concat(tokens)
    decreases |tokens|
  {
    if k < |tokens| {
      var init := tokens[..|tokens| - 1];
      assert tokens[..k] == init[..k];
      ConcatPrefix(init, k);
    } else {
      assert tokens[..k] == tokens;
    }
  }

  /** If a prefix `p` of the tokens of `line` spells `line[..i]` and `i` is
      not the end of the line, the next token exists and begins with
      `line[i]`. */
  lemma NextTokenAt(line: string, p: seq<Token>, i: nat)
    requires i < |line|
    requires p <= Tokenize(line) && Concat(p) == line[..i]
    ensures |p| < |Tokenize(line)|
    ensures Tokenize(line)[..|p|] == p
    ensures Tokenize(line)[|p|].text != "" && Tokenize(line)[|p|].text[0] == line[i]
  {
    var ts := Tokenize(line);
    TokenizeRoundTrip(line);
    assert |Concat(p)| < |Concat(ts)|;
    PrefixEqual(p, ts);
    assert |p| < |ts|;
    NextTokenAfter(ts, p, line, i);
  }

  lemma PrefixEqual(a: seq<Token>, b: seq<Token>)
    ensures a <= b && |a| == |b| ==> a == b
  {
  }

  /** Some token of `ts` is `t`, and the tokens before it spell `before`. */
  ghost predicate TokenAfter(ts: seq<Token>, before: string, t: Token) {
    exists k :: 0 <= k < |ts| && Concat(ts[..k]) == before && ts[k] == t
  }

  /** A token emitted right after `p` is in the final token list, right
      after `p`. */
  lemma EmittedAfter(line: string, m: nat, p: seq<Token>, t: Token)
    requires m <= |line| && Scan(line, m).tokens == p + [t]
    ensures TokenAfter(Tokenize(line), Concat(p), t)
  {
    ScanPrefix(line, m);
    var ts := Tokenize(line);
    PrefixThen(p, t, ts);
    assert ts[..|p|] == p;
  }

  /** A token that follows `before` ends a prefix of the list that spells
      `before` and then its text. */
  lemma TokenEndsAfter(ts: seq<Token>, before: string, t: Token, spelled: string)
    requires TokenAfter(ts, before, t) && before + t.text == spelled
    ensures exists k :: 0 < k <= |ts| && Concat(ts[..k]) == spelled && ts[k - 1] == t
  {
    var j :| 0 <= j < |ts| && Concat(ts[..j]) == before && ts[j] == t;
    assert ts[..j + 1] == ts[..j] + [t];
    ConcatAppend(ts[..j], t);
  }

  /** A token emitted right after the flush at `i` follows the text before
      `i` in the final token list. */
  lemma EmittedAfterFlush(line: string, i: nat, m: nat, t: Token)
    requires i <= m <= |line| && Scan(line, m).tokens == PushCurrent(Scan(line, i)).tokens + [t]
    ensures TokenAfter(Tokenize(line), line[..i], t)
  {
    ScanSpells(line, i);
    PushCurrentFacts(Scan(line, i));
    EmittedAfter(line, m, PushCurrent(Scan(line, i)).tokens, t);
  }

  /** A list that begins with `p + [t]` holds `t` right after `p`. */
  lemma PrefixThen(p: seq<Token>, t: Token, ts: seq<Token>)
    requires p + [t] <= ts
    ensures |p| < |ts| && ts[..|p|] == p && ts[|p|] == t
  {
    assert ts[..|p| + 1] == p + [t];
    assert ts[..|p|] == ts[..|p| + 1][..|p|];
  }

  lemma NextTokenAfter(ts: seq<Token>, p: seq<Token>, line: string, i: nat)
    requires i < |line| && |p| < |ts| && p <= ts
    requires Concat(ts) == line && AllWellFormed(ts) && Concat(p) == line[..i]
    ensures ts[..|p|] == p
    ensures ts[|p|].text != "" && ts[|p|].text[0] == line[i]
  {
    var t := ts[|p|];
    assert WellFormed(t);
    assert ts[..|p| + 1] == p + [t];
    ConcatAppend(p, t);
    ConcatPrefix(ts, |p| + 1);
    var pre := line[..i] + t.text;
    assert pre <= line;
    assert pre[i] == t.text[0];
  }

  // ---------------------------------------------------------------------
  // Token boundaries

  /** Outside a string literal, a delimiter character is emitted as its own
      one-character plain token, and everything before it has been flushed
      into earlier tokens. */
  lemma DelimiterIsOwnToken(line: string, i: nat)
    requires i < |line| && !InString(line, i) && IsDelimiter(line[i])
    ensures TokenAfter(Tokenize(line), line[..i], Token(Plain, [line[i]]))
  {
    ScanStep(line, i);
    StepOutside(Scan(line, i), line[i], AfterLt(line, i));
    EmittedAfterFlush(line, i, i + 1, Token(Plain, [line[i]]));
  }

  /** Outside a string literal, `<` flushes the buffer and starts a new token,
      which begins with `<` and is therefore a tag. */
  lemma OpenTagStartsToken(line: string, i: nat)
    requires i < |line| && !InString(line, i) && line[i] == '<'
    ensures exists k :: (0 <= k < |Tokenize(line)| && Concat(Tokenize(line)[..k]) == line[..i] &&
      Tokenize(line)[k].kind == Tag && StartsWith(Tokenize(line)[k].text, "<"))
  {
    var st := Scan(line, i);
    var st1 := PushCurrent(st);
    ScanSpells(line, i);
    PushCurrentFacts(st);
    ScanPrefix(line, i + 1);
    ScanStep(line, i);
    StepOutside(st, line[i], AfterLt(line, i));
    assert Scan(line, i + 1).tokens == st1.tokens;
    NextTokenAt(line, st1.tokens, i);
    var ts := Tokenize(line);
    var k := |st1.tokens|;
    TokenizeRoundTrip(line);
    assert WellFormed(ts[k]);
    KeywordsLeadPlain(ts[k].text);
  }

  /** Outside a string literal, `>` is appended to the pending token and ends
      it: some token ends exactly at this character. */
  lemma CloseTagEndsToken(line: string, i: nat)
    requires i < |line| && !InString(line, i) && line[i] == '>'
    ensures exists k :: (0 < k <= |Tokenize(line)| && Concat(Tokenize(line)[..k]) == line[..i + 1] &&
      Tokenize(line)[k - 1].text != "" &&
      Tokenize(line)[k - 1].text[|Tokenize(line)[k - 1].text| - 1] == '>')
    ensures var cur := Scan(line, i).current + ">";
      TokenAfter(Tokenize(line), Concat(Scan(line, i).tokens), Token(Classify(cur), cur))
  {
    var before := Concat(Scan(line, i).tokens);
    var cur := Scan(line, i).current + ">";
    CloseTagFlushes(line, i);
    ScanSpells(line, i);
    SpellsThrough(before, Scan(line, i).current, line, i);
    assert cur != "" && cur[|cur| - 1] == '>';
    TokenEndsAfter(Tokenize(line), before, Token(Classify(cur), cur), line[..i + 1]);
  }

  /** Text spelling `line[..i]`, followed by one more character of the line. */
  lemma SpellsThrough(before: string, pending: string, line: string, i: nat)
    requires i < |line| && before + pending == line[..i]
    ensures before + (pending + [line[i]]) == line[..i + 1]
  {
    assert line[..i + 1] == line[..i] + [line[i]];
  }

  /** `>` joins the pending buffer, which is then flushed as one token. */
  lemma CloseTagFlushes(line: string, i: nat)
    requires i < |line| && !InString(line, i) && line[i] == '>'
    ensures var cur := Scan(line, i).current + ">";
      TokenAfter(Tokenize(line), Concat(Scan(line, i).tokens), Token(Classify(cur), cur))
  {
    var cur := Scan(line, i).current + ">";
    ScanStep(line, i);
    StepOutside(Scan(line, i), line[i], AfterLt(line, i));
    assert Scan(line, i + 1).tokens == Scan(line, i).tokens + [Token(Classify(cur), cur)];
    EmittedAfter(line, i + 1, Scan(line, i).tokens, Token(Classify(cur), cur));
  }

  /** Outside a string literal and with an empty buffer, a run of ordinary
      characters only fills the buffer: nothing is emitted inside a word. */
  lemma {:induction false} OrdinaryRun(line: string, i: nat, m: nat)
    requires i <= m <= |line| && !InString(line, i) && Scan(line, i).current == ""
    requires forall k :: i <= k < m ==> Ordinary(line[k])
    ensures Scan(line, m) == Scan(line, i).(current := line[i..m])
  {
    if m > i {
      OrdinaryRun(line, i, m - 1);
      ScanLast(line, m);
      StepOutside(Scan(line, m - 1), line[m - 1], AfterLt(line, m - 1));
      assert line[i..m] == line[i..m - 1] + [line[m - 1]];
    }
  }

  /** The scanner after a flush point `i`: the start of the line, or just past
      a delimiter read outside a string literal. The buffer is empty there and
      the emitted tokens spell `line[..i]`. */
  lemma WordStart(line: string, i: nat)
    requires i <= |line| && (i == 0 || (!InString(line, i - 1) && IsDelimiter(line[i - 1])))
    ensures !InString(line, i) && Scan(line, i).current == ""
    ensures Concat(Scan(line, i).tokens) == line[..i]
  {
    if i > 0 {
      ScanStep(line, i - 1);
      StepOutside(Scan(line, i - 1), line[i - 1], AfterLt(line, i - 1));
      PushCurrentFacts(Scan(line, i - 1));
    }
    ScanSpells(line, i);
  }

  /** A word of ordinary characters between two flush points (the start of
      the line or a delimiter before it, and a delimiter or the end of the
      line after it) is emitted as exactly one token, classified as a whole. */
  lemma WordIsOneToken(line: string, i: nat, j: nat)
    requires i < j <= |line|
    requires i == 0 || (!InString(line, i - 1) && IsDelimiter(line[i - 1]))
    requires forall k :: i <= k < j ==> Ordinary(line[k])
    requires j == |line| || IsDelimiter(line[j])
    ensures TokenAfter(Tokenize(line), line[..i], Token(Classify(line[i..j]), line[i..j]))
  {
    var w := line[i..j];
    var t := Token(Classify(w), w);
    WordStart(line, i);
    var p := Scan(line, i).tokens;
    OrdinaryRun(line, i, j);
    assert PushCurrent(Scan(line, j)).tokens == p + [t];
    if j == |line| {
      assert Tokenize(line) == p + [t];
    } else {
      ScanStep(line, j);
      StepOutside(Scan(line, j), line[j], AfterLt(line, j));
      assert Scan(line, j + 1).tokens == p + [t] + [Token(Plain, [line[j]])];
      ScanPrefix(line, j + 1);
      PrefixTrans(p + [t], Scan(line, j + 1).tokens, Tokenize(line));
    }
    PrefixThen(p, t, Tokenize(line));
  }

  /** A keyword standing between two flush points is one keyword token;
      keywords are lower-case letters, so every character is ordinary. */
  lemma KeywordWord(line: string, i: nat, j: nat)
    requires i < j <= |line| && line[i..j] in Keywords
    requires i == 0 || (!InString(line, i - 1) && IsDelimiter(line[i - 1]))
    requires j == |line| || IsDelimiter(line[j])
    ensures TokenAfter(Tokenize(line), line[..i], Token(Keyword, line[i..j]))
  {
    assert forall w, k :: w in Keywords && 0 <= k < |w| ==> 'a' <= w[k] <= 'z';
    assert forall k :: i <= k < j ==> line[k] == line[i..j][k - i];
    WordIsOneToken(line, i, j);
  }

  /** An `@` word of ordinary characters standing between two flush points is
      one decorator token. */
  lemma DecoratorWord(line: string, i: nat, j: nat)
    requires i < j <= |line| && line[i] == '@'
    requires i == 0 || (!InString(line, i - 1) && IsDelimiter(line[i - 1]))
    requires forall k :: i <= k < j ==> Ordinary(line[k])
    requires j == |line| || IsDelimiter(line[j])
    ensures TokenAfter(Tokenize(line), line[..i], Token(Decorator, line[i..j]))
  {
    KeywordsLeadPlain(line[i..j]);
    WordIsOneToken(line, i, j);
  }

  /** The scanner inside a string literal opened at `i`, up to (not including)
      the closing quote: the buffer holds the literal read so far. */
  lemma {:induction false} InsideString(line: string, i: nat, m: nat)
    requires i < m <= |line| && !InString(line, i) && IsQuote(line[i])
    requires forall j :: i < j < m ==> line[j] != line[i]
    ensures Scan(line, m) == LexState(PushCurrent(Scan(line, i)).tokens, line[i..m], true, [line[i]])
  {
    var q := line[i];
    var p := PushCurrent(Scan(line, i)).tokens;
    if m == i + 1 {
      ScanStep(line, i);
      StepOutside(Scan(line, i), line[i], AfterLt(line, i));
      assert line[i..m] == [q];
    } else {
      InsideString(line, i, m - 1);
      var prev := Scan(line, m - 1);
      assert prev == LexState(p, line[i..m - 1], true, [q]);
      var c := line[m - 1];
      assert [c] != prev.stringChar;
      ScanLast(line, m);
      StepInside(prev, c, AfterLt(line, m - 1));
      assert line[i..m] == line[i..m - 1] + [c];
    }
  }

  /** The first index after `i` holding the quote character that opened a
      string at `i`, or -1. */
  function ClosingQuote(line: string, i: nat): (j: int)
    requires i < |line|
    ensures j == -1 || i < j < |line|
    ensures j == -1 ==> forall k :: i < k < |line| ==> line[k] != line[i]
    ensures j != -1 ==> line[j] == line[i] && forall k :: i < k < j ==> line[k] != line[i]
  {
    CharSearch(line, line[i], i + 1);
    IndexFrom(line, [line[i]], i + 1)
  }

  /** Searching for a one-character pattern finds the next index holding
      that character. */
  lemma CharSearch(s: string, c: char, from: nat)
    ensures var j := IndexFrom(s, [c], from);
      (j == -1 ==> forall k :: from <= k < |s| ==> s[k] != c) &&
      (j != -1 ==> from <= j < |s| && s[j] == c && forall k :: from <= k < j ==> s[k] != c)
  {
    var j := IndexFrom(s, [c], from);
    forall k: nat | k < |s| && !OccursAt(s, [c], k)
      ensures s[k] != c
    {
      assert s[k..k + 1] == [s[k]];
    }
    if j != -1 {
      assert s[j..j + 1] == [c];
    }
  }

  /** A quote outside a string literal flushes the buffer and starts a string
      token that runs through the next occurrence of the same quote, with
      delimiters inside it left unsplit. */
  lemma StringTokenClosed(line: string, i: nat)
    requires i < |line| && !InString(line, i) && IsQuote(line[i]) && ClosingQuote(line, i) != -1
    ensures TokenAfter(Tokenize(line), line[..i], Token(StringLit, line[i..ClosingQuote(line, i) + 1]))
  {
    var j := ClosingQuote(line, i);
    ClosingQuoteStep(line, i, j);
    EmittedAfterFlush(line, i, j + 1, Token(StringLit, line[i..j + 1]));
  }

  /** Reading the closing quote at `j` flushes the literal opened at `i`. */
  lemma ClosingQuoteStep(line: string, i: nat, j: nat)
    requires i < j < |line| && !InString(line, i) && IsQuote(line[i])
    requires line[j] == line[i] && forall k :: i < k < j ==> line[k] != line[i]
    ensures Scan(line, j + 1).tokens == PushCurrent(Scan(line, i)).tokens + [Token(StringLit, line[i..j + 1])]
  {
    InsideString(line, i, j);
    var prev := Scan(line, j);
    ScanStep(line, j);
    StepInside(prev, line[j], AfterLt(line, j));
    assert line[i..j + 1] == line[i..j] + [line[j]];
    FlushLiteral(prev.(current := line[i..j + 1], inString := false));
  }

  /** Flushing a buffer that opens with a quote emits a string token. */
  lemma FlushLiteral(st: LexState)
    requires st.current != "" && IsQuote(st.current[0])
    ensures PushCurrent(st).tokens == st.tokens + [Token(StringLit, st.current)]
  {
    KeywordsLeadPlain(st.current);
  }

  /** An unterminated string literal runs to the end of the line and is the
      last token, flushed by the final `pushCurrent`. */
  lemma StringTokenUnterminated(line: string, i: nat)
    requires i < |line| && !InString(line, i) && IsQuote(line[i]) && ClosingQuote(line, i) == -1
    ensures var ts := Tokenize(line);
      |ts| >= 1 && Concat(ts[..|ts| - 1]) == line[..i] && ts[|ts| - 1] == Token(StringLit, line[i..])
  {
    var st := Scan(line, i);
    var p := PushCurrent(st).tokens;
    ScanSpells(line, i);
    PushCurrentFacts(st);
    InsideString(line, i, |line|);
    assert line[i..] == line[i..|line|];
    KeywordsLeadPlain(line[i..]);
    var ts := Tokenize(line);
    assert ts == p + [Token(StringLit, line[i..])];
    assert ts[..|ts| - 1] == p;
  }

  // ---------------------------------------------------------------------
  // highlightSyntax, its per-line use and formatLogLine

  /** `highlightSyntax`: a trailing `//` comment is cut off as one comment
      token, and the text before it is tokenized. */
  function Highlight(line: string): (r: seq<Token>)
    ensures Concat(r) == line
  {
    var c := IndexOf(line, "//");
    if c != -1 then
      HighlightSplit(line, c);
      Tokenize(line[..c]) + [Token(Comment, line[c..])]
    else
      TokenizeRoundTrip(line);
      Tokenize(line)
  }

  lemma HighlightSplit(line: string, c: nat)
    requires c < |line| && OccursAt(line, "//", c)
    ensures Concat(Tokenize(line[..c]) + [Token(Comment, line[c..])]) == line
  {
    TokenizeRoundTrip(line[..c]);
    ConcatAppend(Tokenize(line[..c]), Token(Comment, line[c..]));
    assert line == line[..c] + line[c..];
  }

  /** A line without `//` is highlighted exactly as it is tokenized, and no
      token is a comment. */
  lemma HighlightWithoutComment(line: string)
    requires !Contains(line, "//")
    ensures Highlight(line) == Tokenize(line)
    ensures forall k :: 0 <= k < |Highlight(line)| ==> WellFormed(Highlight(line)[k]) && Highlight(line)[k].kind != Comment
  {
    TokenizeRoundTrip(line);
  }

  /** A line with `//` ends in one comment token holding everything from the
      first `//` on (even inside a string literal); the tokens before it are
      those of the text before it, which holds no `//`, and none of them is a
      comment. */
  lemma HighlightWithComment(line: string)
    requires Contains(line, "//")
    ensures var r := Highlight(line);
      |r| >= 1 &&
      r[..|r| - 1] == Tokenize(line[..IndexOf(line, "//")]) &&
      r[|r| - 1].kind == Comment && StartsWith(r[|r| - 1].text, "//") &&
      r[|r| - 1].text == line[IndexOf(line, "//")..] &&
      !Contains(Concat(r[..|r| - 1]), "//") &&
      forall k :: 0 <= k < |r| - 1 ==> WellFormed(r[k]) && r[k].kind != Comment
  {
    var c := IndexOf(line, "//");
    var pre := Tokenize(line[..c]);
    var r := Highlight(line);
    assert r == pre + [Token(Comment, line[c..])];
    TokenizeRoundTrip(line[..c]);
    assert r[..|r| - 1] == pre;
    assert line[c..][..2] == line[c..c + 2];
    NoneBeforeFirst(line, "//");
  }

  /** The whole code blob of a tab, split at newlines and highlighted line by
      line. */
  function HighlightCode(code: string): (r: seq<seq<Token>>)
    ensures |r| == |Split(code, "\n")|
    ensures forall k :: 0 <= k < |r| ==> r[k] == Highlight(Split(code, "\n")[k])
    ensures forall k :: 0 <= k < |r| ==> Concat(r[k]) == Split(code, "\n")[k] && !Contains(Concat(r[k]), "\n")
  {
    SplitPieces(code, "\n");
    var lines := Split(code, "\n");
    seq(|lines|, k requires 0 <= k < |lines| => Highlight(lines[k]))
  }

  /** The highlighted lines, put back together with newlines, spell the code
      exactly. */
  lemma HighlightCodeRoundTrip(code: string)
    ensures var r := HighlightCode(code);
      Join(seq(|r|, k requires 0 <= k < |r| => Concat(r[k])), "\n") == code
  {
    var r := HighlightCode(code);
    var texts := seq(|r|, k requires 0 <= k < |r| => Concat(r[k]));
    assert texts == Split(code, "\n");
    JoinSplit(code, "\n");
  }

  /** `formatLogLine`, as the decision it renders. */
  datatype LogLineView =
    | Continuation(text: string)
    | Badged(badge: string, badgeClass: string, rest: string)
    | Unformatted(text: string)

  /** The badge class of `formatLogLine`: debug, overwritten in turn by info,
      warn and error when the badge mentions them. */
  function BadgeClassOf(badge: string): (cls: string)
    ensures cls == "log-badge-error" <==> Contains(badge, "ERROR")
    ensures cls == "log-badge-warn" <==> !Contains(badge, "ERROR") && Contains(badge, "WARN")
    ensures cls == "log-badge-info" <==> !Contains(badge, "ERROR") && !Contains(badge, "WARN") && Contains(badge, "INFO")
    ensures cls == "log-badge-debug" <==> !Contains(badge, "ERROR") && !Contains(badge, "WARN") && !Contains(badge, "INFO")
  {
    var c0 := "log-badge-debug";
    var c1 := if Contains(badge, "INFO") then "log-badge-info" else c0;
    var c2 := if Contains(badge, "WARN") then "log-badge-warn" else c1;
    if Contains(badge, "ERROR") then "log-badge-error" else c2
  }

  /** `formatLogLine`: continuation lines whole; otherwise the text before the
      first ` | ` is the badge and the rest follows; no separator, unchanged. */
  function FormatLogLine(line: string): (r: LogLineView)
    ensures r.Continuation? <==> StartsWith(line, "   ")
    ensures r.Badged? <==> !StartsWith(line, "   ") && Contains(line, " | ")
    ensures !r.Badged? ==> r.text == line
    ensures r.Badged? ==>
      r.badge + " | " + r.rest == line &&
      (forall j: nat :: j < |r.badge| ==> !OccursAt(line, " | ", j)) &&
      r.badgeClass == BadgeClassOf(r.badge)
  {
    if StartsWith(line, "   ") then Continuation(line)
    else
      var parts := Split(line, " | ");
      if |parts| >= 2 then
        FormatBadged(line);
        Badged(parts[0], BadgeClassOf(parts[0]), Join(parts[1..], " | "))
      else Unformatted(line)
  }

  lemma FormatBadged(line: string)
    requires Contains(line, " | ")
    ensures var parts := Split(line, " | ");
      |parts| >= 2 &&
      parts[0] + " | " + Join(parts[1..], " | ") == line &&
      IndexOf(line, " | ") == |parts[0]|
  {
    SplitFirst(line, " | ");
    Decompose(line, " | ", IndexOf(line, " | "));
  }
}
