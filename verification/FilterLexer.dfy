/** The tokens of a SCIM filter, and the text they are read from. */
module FilterLexer {
  import opened Text

  /** What the Unicode tables and the number parser say. */
  datatype Alphabet = Alphabet(isLetter: char -> bool, isDigit: char -> bool, lower: char -> char,
                               parseNumber: string -> Option<real>)

  /** The tables agree with ASCII. */
  ghost predicate Ascii(al: Alphabet) {
    && (forall c: char :: c < '\U{80}' ==> (al.isLetter(c) <==> 'a' <= c <= 'z' || 'A' <= c <= 'Z'))
    && (forall c: char :: c < '\U{80}' ==> (al.isDigit(c) <==> '0' <= c <= '9'))
    && (forall c: char :: 'a' <= c <= 'z' ==> al.lower(c) == c)
    && (forall c: char :: 'A' <= c <= 'Z' ==> al.lower(c) == (c as int + 32) as char)
  }

  datatype Kind = EOF | LParen | RParen | And | Or | Not | Present | Op | Attr | Str | Number | Bool | Null

  datatype Token = Token(kind: Kind, text: string)

  const END := Token(EOF, "")

  predicate WordChar(al: Alphabet, c: char) { al.isLetter(c) || al.isDigit(c) || c == '_' || c == '.' || c == '-' }

  predicate WordTail(al: Alphabet, c: char) { WordChar(al, c) || c == ':' }

  predicate NumberTail(al: Alphabet, c: char) { al.isDigit(c) || c == '.' }

  function Lower(al: Alphabet, s: string): string { if s == "" then "" else [al.lower(s[0])] + Lower(al, s[1..]) }

  predicate IsOp(s: string) { s in ["eq", "ne", "co", "sw", "ew", "gt", "ge", "lt", "le"] }

  function Classify(al: Alphabet, word: string): Token {
    var w := Lower(al, word);
    if w == "and" then Token(And, word)
    else if w == "or" then Token(Or, word)
    else if w == "not" then Token(Not, word)
    else if w == "pr" then Token(Present, word)
    else if IsOp(w) then Token(Op, w)
    else if w == "true" || w == "false" then Token(Bool, word)
    else if w == "null" then Token(Null, word)
    else Token(Attr, word)
  }

  // ---- reading ----

  datatype Scan = Unterminated | Closed(text: string, next: nat)

  /** The rest of a string literal from `j` on, with escapes undone. */
  function Quoted(r: string, j: nat): (s: Scan)
    ensures s.Closed? ==> j < s.next <= |r|
    decreases |r| - j
  {
    if j >= |r| then Unterminated
    else if r[j] == '"' then Closed("", j + 1)
    else
      var k := if r[j] == '\\' && j + 1 < |r| then j + 1 else j;
      var rest := Quoted(r, k + 1);
      if rest.Unterminated? then rest else Closed([r[k]] + rest.text, rest.next)
  }

  function WordEnd(al: Alphabet, r: string, j: nat): (k: nat)
    requires j <= |r|
    ensures j <= k <= |r|
    decreases |r| - j
  {
    if j < |r| && WordTail(al, r[j]) then WordEnd(al, r, j + 1) else j
  }

  function NumberEnd(al: Alphabet, r: string, j: nat): (k: nat)
    requires j <= |r|
    ensures j <= k <= |r|
    decreases |r| - j
  {
    if j < |r| && NumberTail(al, r[j]) then NumberEnd(al, r, j + 1) else j
  }

  predicate StartsNumber(al: Alphabet, r: string, i: nat)
    requires i < |r|
  {
    al.isDigit(r[i]) || (r[i] == '-' && i + 1 < |r| && al.isDigit(r[i + 1]))
  }

  datatype LexError = UnterminatedString | UnexpectedCharacter(c: char)

  datatype Step = Skip(next: nat) | Emit(token: Token, next: nat) | Stop(error: LexError)

  /** What is read at one position. */
  function StepAt(al: Alphabet, r: string, i: nat): (s: Step)
    requires i < |r|
    ensures !s.Stop? ==> i < s.next <= |r|
  {
    var c := r[i];
    if IsWhite(c) then Skip(i + 1)
    else if c == '(' then Emit(Token(LParen, "("), i + 1)
    else if c == ')' then Emit(Token(RParen, ")"), i + 1)
    else if c == '"' then
      var s := Quoted(r, i + 1);
      if s.Unterminated? then Stop(UnterminatedString) else Emit(Token(Str, s.text), s.next)
    else if StartsNumber(al, r, i) then
      var j := NumberEnd(al, r, i + 1);
      Emit(Token(Number, r[i..j]), j)
    else if WordChar(al, c) then
      var j := WordEnd(al, r, i + 1);
      Emit(Classify(al, r[i..j]), j)
    else Stop(UnexpectedCharacter(c))
  }

  datatype Lexed = Read(tokens: seq<Token>) | Failed(error: LexError)

  function Lex(al: Alphabet, r: string, i: nat): Lexed
    requires i <= |r|
    decreases |r| - i
  {
    if i == |r| then Read([END])
    else
      var s := StepAt(al, r, i);
      if s.Stop? then Failed(s.error)
      else
        var rest := Lex(al, r, s.next);
        if rest.Failed? || s.Skip? then rest else Read([s.token] + rest.tokens)
  }

  /** `done`, then what the rest reads. */
  function Prefixed(done: seq<Token>, rest: Lexed): Lexed {
    if rest.Failed? then rest else Read(done + rest.tokens)
  }

  method ReadString(r: string, i: nat) returns (s: Scan)
    requires i <= |r|
    ensures s == Quoted(r, i)
  {
    var j, text := i, "";
    while j < |r| && r[j] != '"'
      invariant i <= j <= |r|
      invariant Quoted(r, i) == var rest := Quoted(r, j);
                if rest.Unterminated? then rest else Closed(text + rest.text, rest.next)
    {
      ghost var before := text;
      ghost var from := j;
      if r[j] == '\\' && j + 1 < |r| { j := j + 1; }
      text := text + [r[j]];
      j := j + 1;
      ghost var rest := Quoted(r, j);
      if rest.Closed? { Regroup(before, [r[j - 1]], rest.text); }
    }
    if j >= |r| {
      return Unterminated;
    }
    assert text + "" == text;
    return Closed(text, j + 1);
  }

  method ReadNumber(al: Alphabet, r: string, i: nat) returns (j: nat)
    requires i < |r|
    ensures j == NumberEnd(al, r, i + 1)
  {
    j := i + 1;
    while j < |r| && (al.isDigit(r[j]) || r[j] == '.')
      invariant i < j <= |r| && NumberEnd(al, r, j) == NumberEnd(al, r, i + 1)
    {
      j := j + 1;
    }
  }

  method ReadWord(al: Alphabet, r: string, i: nat) returns (j: nat)
    requires i < |r| && WordChar(al, r[i])
    ensures j == WordEnd(al, r, i + 1)
  {
    j := i;
    while j < |r| && (WordChar(al, r[j]) || r[j] == ':')
      invariant i <= j <= |r| && WordEnd(al, r, j) == WordEnd(al, r, i + 1)
    {
      j := j + 1;
    }
  }

  /** The tokenizer's loop: total, and always moving forward. */
  method Tokenize(al: Alphabet, r: string) returns (out: Lexed)
    ensures out == Lex(al, r, 0)
  {
    var toks: seq<Token> := [];
    var i := 0;
    while i < |r|
      invariant i <= |r| && Lex(al, r, 0) == Prefixed(toks, Lex(al, r, i))
    {
      var c := r[i];
      ghost var step := StepAt(al, r, i);
      ghost var before := toks;
      if IsWhite(c) {
        i := i + 1;
      } else {
        if c == '(' {
          toks := toks + [Token(LParen, "(")];
          i := i + 1;
        } else if c == ')' {
          toks := toks + [Token(RParen, ")")];
          i := i + 1;
        } else if c == '"' {
          var s := ReadString(r, i + 1);
          if s.Unterminated? { return Failed(UnterminatedString); }
          toks := toks + [Token(Str, s.text)];
          i := s.next;
        } else if al.isDigit(c) || (c == '-' && i + 1 < |r| && al.isDigit(r[i + 1])) {
          var j := ReadNumber(al, r, i);
          toks := toks + [Token(Number, r[i..j])];
          i := j;
        } else if WordChar(al, c) {
          var j := ReadWord(al, r, i);
          toks := toks + [Classify(al, r[i..j])];
          i := j;
        } else {
          return Failed(UnexpectedCharacter(c));
        }
        assert step == Emit(toks[|before|], i) && toks == before + [step.token];
        ghost var rest := Lex(al, r, i);
        if rest.Read? { Regroup(before, [step.token], rest.tokens); }
      }
    }
    return Read(toks + [END]);
  }

  // ---- every accepted text ----

  ghost predicate EndsOnce(ts: seq<Token>) {
    ts != [] && ts[|ts| - 1] == END && forall i :: 0 <= i < |ts| - 1 ==> ts[i].kind != EOF
  }

  /** Only the last token is the end marker. */
  lemma {:induction false} LexShape(al: Alphabet, r: string, i: nat)
    requires i <= |r| && Lex(al, r, i).Read?
    ensures EndsOnce(Lex(al, r, i).tokens)
    decreases |r| - i
  {
    if i < |r| {
      var s := StepAt(al, r, i);
      LexShape(al, r, s.next);
    }
  }

  // ---- printing ----

  function Escape(s: string): string {
    if s == "" then ""
    else (if s[0] == '"' || s[0] == '\\' then ['\\', s[0]] else [s[0]]) + Escape(s[1..])
  }

  function Spelling(t: Token): string {
    if t.kind == Str then "\"" + (Escape(t.text) + "\"") else t.text
  }

  /** Words the tokenizer takes for words. */
  predicate IsWord(al: Alphabet, w: string) {
    && w != "" && WordChar(al, w[0]) && !al.isDigit(w[0]) && !IsWhite(w[0])
    && w[0] != '(' && w[0] != ')' && w[0] != '"'
    && !(w[0] == '-' && |w| > 1 && al.isDigit(w[1]))
    && forall i :: 0 <= i < |w| ==> WordTail(al, w[i])
  }

  predicate IsNumeral(al: Alphabet, n: string) {
    && n != "" && StartsNumber(al, n, 0) && !IsWhite(n[0]) && n[0] != '(' && n[0] != ')' && n[0] != '"'
    && forall i :: 1 <= i < |n| ==> NumberTail(al, n[i])
  }

  /** Tokens that have a text of their own. */
  predicate Printable(al: Alphabet, t: Token) {
    match t.kind
    case LParen => t.text == "("
    case RParen => t.text == ")"
    case Str => true
    case Number => IsNumeral(al, t.text)
    case EOF => false
    case _ => IsWord(al, t.text) && Classify(al, t.text) == t
  }

  /** Token texts with a space between them. */
  function Spell(ts: seq<Token>): string {
    if ts == [] then "" else Spelling(ts[0]) + (if |ts| == 1 then "" else " " + Spell(ts[1..]))
  }

  ghost predicate Breaks(tail: string) { tail == "" || tail[0] == ' ' }

  lemma {:induction false} QuotedEscape(r: string, j: nat, s: string, tail: string)
    requires j <= |r| && r[j..] == Escape(s) + ("\"" + tail)
    ensures Quoted(r, j) == Closed(s, |r| - |tail|)
    decreases s
  {
    if s == "" {
      assert r[j..] == "\"" + tail && r[j] == r[j..][0];
    } else {
      var e := if s[0] == '"' || s[0] == '\\' then ['\\', s[0]] else [s[0]];
      Regroup(e, Escape(s[1..]), "\"" + tail);
      assert r[j..] == e + (Escape(s[1..]) + ("\"" + tail));
      assert r[j] == r[j..][0];
      assert |e| == 2 ==> r[j + 1] == r[j..][1];
      assert r[j + |e|..] == r[j..][|e|..];
      QuotedEscape(r, j + |e|, s[1..], tail);
    }
  }

  lemma {:induction false} WordEndsAt(al: Alphabet, r: string, j: nat, k: nat)
    requires j <= k <= |r| && (forall i :: j <= i < k ==> WordTail(al, r[i])) && (k < |r| ==> !WordTail(al, r[k]))
    ensures WordEnd(al, r, j) == k
    decreases k - j
  {
    if j < k { WordEndsAt(al, r, j + 1, k); }
  }

  lemma {:induction false} NumberEndsAt(al: Alphabet, r: string, j: nat, k: nat)
    requires j <= k <= |r| && (forall i :: j <= i < k ==> NumberTail(al, r[i])) && (k < |r| ==> !NumberTail(al, r[k]))
    ensures NumberEnd(al, r, j) == k
    decreases k - j
  {
    if j < k { NumberEndsAt(al, r, j + 1, k); }
  }

  lemma {:induction false} SpaceBreaks(al: Alphabet)
    requires Ascii(al)
    ensures !WordTail(al, ' ') && !NumberTail(al, ' ') && IsWhite(' ')
  {
  }

  lemma {:induction false} Window(r: string, i: nat, w: string, tail: string)
    requires i <= |r| && r[i..] == w + tail
    ensures |r| == i + |w| + |tail| && r[i..i + |w|] == w
    ensures forall n :: i <= n < i + |w| ==> r[n] == w[n - i]
    ensures tail != "" ==> r[i + |w|] == tail[0]
  {
    assert forall n :: i <= n < i + |w| ==> r[n] == r[i..][n - i];
    assert tail != "" ==> r[i + |w|] == r[i..][|w|];
    assert r[i..i + |w|] == r[i..][..|w|];
  }

  lemma {:induction false} WordRead(al: Alphabet, r: string, i: nat, w: string, tail: string)
    requires Ascii(al) && IsWord(al, w) && i <= |r| && r[i..] == w + tail && Breaks(tail)
    ensures i < |r| && StepAt(al, r, i) == Emit(Classify(al, w), |r| - |tail|)
  {
    Window(r, i, w, tail);
    SpaceBreaks(al);
    WordEndsAt(al, r, i + 1, i + |w|);
  }

  lemma {:induction false} NumeralRead(al: Alphabet, r: string, i: nat, n: string, tail: string)
    requires Ascii(al) && IsNumeral(al, n) && i <= |r| && r[i..] == n + tail && Breaks(tail)
    ensures i < |r| && StepAt(al, r, i) == Emit(Token(Number, n), |r| - |tail|)
  {
    Window(r, i, n, tail);
    SpaceBreaks(al);
    NumberEndsAt(al, r, i + 1, i + |n|);
  }

  lemma {:induction false} StringRead(al: Alphabet, r: string, i: nat, s: string, tail: string)
    requires i <= |r| && r[i..] == "\"" + (Escape(s) + "\"") + tail
    ensures i < |r| && StepAt(al, r, i) == Emit(Token(Str, s), |r| - |tail|)
  {
    Window(r, i, "\"" + (Escape(s) + "\""), tail);
    assert r[i + 1..] == r[i..][1..] == Escape(s) + ("\"" + tail);
    QuotedEscape(r, i + 1, s, tail);
  }

  /** The text `w` is read as the token: its own text, or a word that is classified as it. */
  ghost predicate ReadAs(al: Alphabet, w: string, t: Token) {
    (Printable(al, t) && w == Spelling(t)) || (IsWord(al, w) && Classify(al, w) == t)
  }

  /** The text of a token, followed by a space or the end, is read whole. */
  lemma {:induction false} TokenRead(al: Alphabet, r: string, i: nat, w: string, t: Token, tail: string)
    requires Ascii(al) && ReadAs(al, w, t) && i <= |r| && r[i..] == w + tail && Breaks(tail)
    ensures i < |r| && StepAt(al, r, i) == Emit(t, |r| - |tail|)
  {
    if IsWord(al, w) && Classify(al, w) == t {
      WordRead(al, r, i, w, tail);
    } else {
      match t.kind {
        case Str => StringRead(al, r, i, t.text, tail);
        case Number => NumeralRead(al, r, i, t.text, tail);
        case LParen => Window(r, i, t.text, tail);
        case RParen => Window(r, i, t.text, tail);
        case _ =>
      }
    }
  }

  lemma {:induction false} LexSpace(al: Alphabet, r: string, k: nat, rest: Lexed)
    requires k < |r| && r[k] == ' ' && Lex(al, r, k + 1) == rest
    ensures Lex(al, r, k) == rest
  {
  }

  /** How many tokens have no text of their own. */
  function Unprintable(al: Alphabet, ts: seq<Token>): nat {
    if ts == [] then 0 else (if Printable(al, ts[0]) then 0 else 1) + Unprintable(al, ts[1..])
  }

  predicate AllPrintable(al: Alphabet, ts: seq<Token>) { Unprintable(al, ts) == 0 }

  lemma {:induction false} PrintableAt(al: Alphabet, ts: seq<Token>, i: nat)
    requires AllPrintable(al, ts) && i < |ts|
    ensures Printable(al, ts[i])
  {
    if i > 0 { PrintableAt(al, ts[1..], i - 1); }
  }

  lemma {:induction false} JoinPrintable(al: Alphabet, a: seq<Token>, b: seq<Token>)
    requires AllPrintable(al, a) && AllPrintable(al, b)
    ensures AllPrintable(al, a + b)
  {
    if a == [] { assert a + b == b; }
    else {
      assert (a + b)[0] == a[0] && (a + b)[1..] == a[1..] + b;
      JoinPrintable(al, a[1..], b);
    }
  }

  lemma {:induction false} PrefixPrintable(al: Alphabet, t: Token, ts: seq<Token>)
    requires Printable(al, t) && AllPrintable(al, ts)
    ensures AllPrintable(al, [t] + ts)
  {
    assert ([t] + ts)[0] == t && ([t] + ts)[1..] == ts;
  }

  lemma {:induction false} SpaceAfter(r: string, i: nat, w: string, after: string) returns (k: nat)
    requires i <= |r| && r[i..] == w + (" " + after)
    ensures k + 1 + |after| == |r| && r[k] == ' ' && r[k + 1..] == after
  {
    k := i + |w|;
    Suffix(r, i, w, " " + after);
    Suffix(r, k, " ", after);
  }

  /** Words with a space between them. */
  function Joined(ws: seq<string>): string {
    if ws == [] then "" else ws[0] + (if |ws| == 1 then "" else " " + Joined(ws[1..]))
  }

  lemma {:induction false} LexTwo(al: Alphabet, r: string, i: nat, w: string, t: Token, tail: string, k: nat,
                                  rest: Lexed)
    requires Ascii(al) && ReadAs(al, w, t) && i <= |r| && r[i..] == w + tail && Breaks(tail)
    requires k + |tail| == |r| && Lex(al, r, k) == rest && rest.Read?
    ensures Lex(al, r, i) == Read([t] + rest.tokens)
  {
    TokenRead(al, r, i, w, t, tail);
  }

  /** Texts that are read as certain tokens are, one after the other, read as these tokens. */
  lemma {:induction false} LexJoined(al: Alphabet, r: string, i: nat, ws: seq<string>, ts: seq<Token>)
    requires Ascii(al) && i <= |r| && r[i..] == Joined(ws) && |ws| == |ts|
    requires forall k :: 0 <= k < |ts| ==> ReadAs(al, ws[k], ts[k])
    ensures Lex(al, r, i) == Read(ts + [END])
    decreases |ts|
  {
    if ts == [] {
      assert ts + [END] == [END];
    } else {
      assert ts + [END] == [ts[0]] + (ts[1..] + [END]);
      if |ts| == 1 {
        assert ws[0] + "" == ws[0];
        LexTwo(al, r, i, ws[0], ts[0], "", |r|, Read([END]));
        assert ts[1..] + [END] == [END];
      } else {
        var k := SpaceAfter(r, i, ws[0], Joined(ws[1..]));
        LexJoined(al, r, k + 1, ws[1..], ts[1..]);
        LexSpace(al, r, k, Read(ts[1..] + [END]));
        LexTwo(al, r, i, ws[0], ts[0], " " + Joined(ws[1..]), k, Read(ts[1..] + [END]));
      }
    }
  }

  function Spellings(ts: seq<Token>): (ws: seq<string>)
    ensures |ws| == |ts| && forall k :: 0 <= k < |ts| ==> ws[k] == Spelling(ts[k])
  {
    seq(|ts|, k requires 0 <= k < |ts| => Spelling(ts[k]))
  }

  lemma {:induction false} SpellJoins(ts: seq<Token>)
    ensures Spell(ts) == Joined(Spellings(ts))
  {
    if |ts| > 1 {
      assert Spellings(ts)[1..] == Spellings(ts[1..]);
      SpellJoins(ts[1..]);
    }
  }

  /** Reading undoes printing, for every list of printable tokens. */
  lemma {:induction false} LexSpell(al: Alphabet, r: string, i: nat, ts: seq<Token>)
    requires Ascii(al) && i <= |r| && r[i..] == Spell(ts) && AllPrintable(al, ts)
    ensures Lex(al, r, i) == Read(ts + [END])
  {
    SpellJoins(ts);
    forall k | 0 <= k < |ts| ensures ReadAs(al, Spellings(ts)[k], ts[k]) { PrintableAt(al, ts, k); }
    LexJoined(al, r, i, Spellings(ts), ts);
  }

  // ---- words ----

  lemma {:induction false} OneWord(al: Alphabet, w: string)
    requires Ascii(al) && IsWord(al, w)
    ensures Lex(al, w, 0) == Read([Classify(al, w), END])
  {
    var t := Classify(al, w);
    assert w[0..] == Joined([w]);
    LexJoined(al, w, 0, [w], [t]);
    assert [t] + [END] == [t, END];
  }

  /** What a word is read as: a keyword or an operator in whatever letter case, or an attribute. */
  lemma {:induction false} WordsExactly(al: Alphabet, w: string)
    requires Ascii(al) && w != "" && !IsWhite(w[0]) && !al.isDigit(w[0]) && w[0] != ':'
    requires w[0] == '-' && |w| > 1 ==> !al.isDigit(w[1])
    requires forall i :: 0 <= i < |w| ==> al.isLetter(w[i]) || al.isDigit(w[i]) || w[i] in {'_', '.', '-', ':'}
    ensures
      var read, lower := Lex(al, w, 0), Lower(al, w);
      && (read == Read([Token(And, w), END]) <==> lower == "and")
      && (read == Read([Token(Or, w), END]) <==> lower == "or")
      && (read == Read([Token(Not, w), END]) <==> lower == "not")
      && (read == Read([Token(Present, w), END]) <==> lower == "pr")
      && (read == Read([Token(Op, lower), END]) <==>
          lower in {"eq", "ne", "co", "sw", "ew", "gt", "ge", "lt", "le"})
      && (read == Read([Token(Bool, w), END]) <==> lower in {"true", "false"})
      && (read == Read([Token(Null, w), END]) <==> lower == "null")
      && (read == Read([Token(Attr, w), END]) <==>
          lower !in {"and", "or", "not", "pr", "eq", "ne", "co", "sw", "ew", "gt", "ge", "lt", "le", "true", "false",
                     "null"})
  {
    OneWord(al, w);
    assert forall u: Token :: [u, END][0] == u;
  }

  lemma {:induction false} Suffix(r: string, i: nat, w: string, tail: string)
    requires i <= |r| && r[i..] == w + tail
    ensures i + |w| == |r| - |tail| <= |r| && r[i + |w|..] == tail && (w != "" ==> r[i] == w[0])
  {
    assert |r[i..]| == |w| + |tail|;
    assert r[i + |w|..] == r[i..][|w|..];
    if w != "" { assert r[i] == r[i..][0]; }
  }

  /** A digit, or a minus sign and a digit, and then digits and dots are read as one number. */
  lemma {:induction false} NumbersWhole(al: Alphabet, n: string)
    requires Ascii(al) && n != "" && !IsWhite(n[0]) && n[0] !in {'(', ')', '"'}
    requires al.isDigit(n[0]) || (n[0] == '-' && |n| > 1 && al.isDigit(n[1]))
    requires forall i :: 1 <= i < |n| ==> al.isDigit(n[i]) || n[i] == '.'
    ensures Lex(al, n, 0) == Read([Token(Number, n), END])
  {
    var t := Token(Number, n);
    assert n[0..] == Joined([n]) && Spelling(t) == n;
    LexJoined(al, n, 0, [n], [t]);
    assert [t] + [END] == [t, END];
  }

  /** Whatever is read has a text of its own. */
  lemma {:induction false} StepPrintable(al: Alphabet, r: string, i: nat)
    requires Ascii(al) && i < |r| && StepAt(al, r, i).Emit?
    ensures Printable(al, StepAt(al, r, i).token)
  {
    var t := StepAt(al, r, i).token;
    if t.kind == Number {
      NumeralPrintable(al, r, i);
    } else if t.kind !in {LParen, RParen, Str} {
      WordPrintable(al, r, i);
      if t.kind == Op { OperatorsAreWords(al, t.text); }
    }
  }

  lemma {:induction false} NumeralPrintable(al: Alphabet, r: string, i: nat)
    requires i < |r| && StartsNumber(al, r, i) && !IsWhite(r[i]) && r[i] !in {'(', ')', '"'}
    ensures IsNumeral(al, r[i..NumberEnd(al, r, i + 1)])
  {
    NumberTailBefore(al, r, i + 1);
    var n := r[i..NumberEnd(al, r, i + 1)];
    assert n[0] == r[i];
    assert forall k :: 1 <= k < |n| ==> n[k] == r[i + k];
    if !al.isDigit(r[i]) {
      assert NumberEnd(al, r, i + 1) == NumberEnd(al, r, i + 2);
      assert n[1] == r[i + 1];
    }
  }

  lemma {:induction false} WordPrintable(al: Alphabet, r: string, i: nat)
    requires i < |r| && !StartsNumber(al, r, i) && WordChar(al, r[i]) && !IsWhite(r[i]) && r[i] !in {'(', ')', '"'}
    ensures IsWord(al, r[i..WordEnd(al, r, i + 1)])
  {
    WordTailBefore(al, r, i + 1);
    var w := r[i..WordEnd(al, r, i + 1)];
    assert w[0] == r[i];
    assert forall k :: 1 <= k < |w| ==> w[k] == r[i + k];
  }

  lemma {:induction false} WordTailBefore(al: Alphabet, r: string, j: nat)
    requires j <= |r|
    ensures forall n :: j <= n < WordEnd(al, r, j) ==> WordTail(al, r[n])
    decreases |r| - j
  {
    if j < |r| && WordTail(al, r[j]) { WordTailBefore(al, r, j + 1); }
  }

  lemma {:induction false} NumberTailBefore(al: Alphabet, r: string, j: nat)
    requires j <= |r|
    ensures forall n :: j <= n < NumberEnd(al, r, j) ==> NumberTail(al, r[n])
    decreases |r| - j
  {
    if j < |r| && NumberTail(al, r[j]) { NumberTailBefore(al, r, j + 1); }
  }

  predicate Letters(w: string) { w != "" && forall i :: 0 <= i < |w| ==> 'a' <= w[i] <= 'z' }

  lemma {:induction false} LettersLower(al: Alphabet, w: string)
    requires Ascii(al) && forall i :: 0 <= i < |w| ==> 'a' <= w[i] <= 'z'
    ensures Lower(al, w) == w
  {
    if w != "" {
      LettersLower(al, w[1..]);
      assert w == [w[0]] + w[1..];
    }
  }

  lemma {:induction false} LettersAreWords(al: Alphabet, w: string)
    requires Ascii(al) && Letters(w)
    ensures IsWord(al, w) && Lower(al, w) == w
  {
    LettersLower(al, w);
  }

  lemma {:induction false} OperatorsAreWords(al: Alphabet, w: string)
    requires Ascii(al) && IsOp(w)
    ensures Printable(al, Token(Op, w))
  {
    assert Letters(w);
    LettersAreWords(al, w);
  }

  lemma {:induction false} LexPrintable(al: Alphabet, r: string, i: nat)
    requires Ascii(al) && i <= |r| && Lex(al, r, i).Read?
    ensures
      var ts := Lex(al, r, i).tokens;
      ts != [] && forall k :: 0 <= k < |ts| - 1 ==> Printable(al, ts[k])
    decreases |r| - i
  {
    if i < |r| {
      var s := StepAt(al, r, i);
      LexPrintable(al, r, s.next);
      if s.Emit? { StepPrintable(al, r, i); }
    }
  }
}
