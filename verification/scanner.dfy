/** Character-level primitives over the template. The input stream is the
    whole template `s` plus a cursor `p`; saving and restoring the stream
    position is keeping and reusing a cursor value.

    The functions carry the contracts their callers need; the full
    characterisation of each scan is a separate lemma, so that it is brought
    in only where a proof uses it. */
module Scanner {
  import opened Results

  /** A value read from the template and the cursor just past it. */
  datatype Scanned<+T> = Scanned(value: T, pos: nat)

  /** `std::isspace` in the C locale. */
  predicate IsSpace(c: char) {
    c == ' ' || c == '\t' || c == '\n' || c == '\r' || c as int == 0x0B || c as int == 0x0C
  }

  predicate NotSpace(c: char) {
    !IsSpace(c)
  }

  predicate IsAlpha(c: char) {
    ('A' <= c <= 'Z') || ('a' <= c <= 'z')
  }

  predicate IsIdentChar(c: char) {
    IsAlpha(c) || c == '_'
  }

  predicate IsDigit(c: char) {
    '0' <= c <= '9'
  }

  /** A tag opens at `i`: `{{` or `{%`. */
  predicate IsTagAt(s: string, i: nat) {
    i + 1 < |s| && s[i] == '{' && (s[i + 1] == '{' || s[i + 1] == '%')
  }

  /** Every character of `s[i..j]` satisfies `P`. */
  ghost predicate AllIn(s: string, i: nat, j: nat, P: char -> bool)
    requires i <= j <= |s|
  {
    forall k :: i <= k < j ==> P(s[k])
  }

  /** The end of the longest run of characters satisfying `P` from `p`. */
  function Span(s: string, p: nat, P: char -> bool): (q: nat)
    requires p <= |s|
    ensures p <= q <= |s|
    ensures q == |s| || !P(s[q])
    decreases |s| - p
  {
    if p < |s| && P(s[p]) then Span(s, p + 1, P) else p
  }

  /** Everything `Span` passes over satisfies `P`. */
  lemma {:induction false} SpanAll(s: string, p: nat, P: char -> bool)
    requires p <= |s|
    ensures AllIn(s, p, Span(s, p, P), P)
    decreases |s| - p
  {
    if p < |s| && P(s[p]) {
      SpanAll(s, p + 1, P);
    }
  }

  /** Any cursor that ends a maximal run of `P` from `p` is the one `Span` finds. */
  lemma SpanUnique(s: string, p: nat, P: char -> bool, q: nat)
    requires p <= q <= |s|
    requires AllIn(s, p, q, P)
    requires q == |s| || !P(s[q])
    ensures Span(s, p, P) == q
  {
    SpanAll(s, p, P);
  }

  /** A slice of a matched window is the matching slice of the word. */
  lemma SubSlice(s: string, p: nat, w: string, a: nat, b: nat)
    requires p + |w| <= |s| && s[p..p + |w|] == w
    requires a <= b <= |w|
    ensures s[p + a..p + b] == w[a..b]
  {
    forall i | 0 <= i < b - a
      ensures s[p + a..p + b][i] == w[a..b][i]
    {
      assert s[p + a + i] == s[p..p + |w|][a + i];
    }
  }

  /** Copies the literal text before the next tag and stops on the tag's `{`;
      a `{` followed by anything else is literal text. */
  function StreamUpToTag(s: string, p: nat): (r: Scanned<string>)
    requires p <= |s|
    ensures p <= r.pos <= |s|
    ensures r.pos == |s| || IsTagAt(s, r.pos)
    ensures forall i :: p <= i < r.pos ==> !IsTagAt(s, i)
    ensures p <= r.pos <= |s| && r.value == s[p..r.pos]
    decreases |s| - p
  {
    if p == |s| || IsTagAt(s, p) then Scanned([], p)
    else
      var rest := StreamUpToTag(s, p + 1);
      Scanned([s[p]] + rest.value, rest.pos)
  }

  /** The text copied from `p` is everything up to the first tag, or to
      the end when there is none. */
  lemma StreamStopsAt(s: string, p: nat, k: nat)
    requires p <= k <= |s|
    requires forall i :: p <= i < k ==> !IsTagAt(s, i)
    requires k == |s| || IsTagAt(s, k)
    ensures StreamUpToTag(s, p) == Scanned(s[p..k], k)
  {
  }

  /** Skips the blanks at `p`. */
  function EatWhitespace(s: string, p: nat): (q: nat)
    requires p <= |s|
    ensures p <= q <= |s|
    ensures q == |s| || !IsSpace(s[q])
  {
    Span(s, p, IsSpace)
  }

  /** Every character `EatWhitespace` skips is a blank. */
  lemma EatWhitespaceSkipsBlanks(s: string, p: nat)
    requires p <= |s|
    ensures forall i :: p <= i < EatWhitespace(s, p) ==> IsSpace(s[i])
  {
    SpanAll(s, p, IsSpace);
  }

  /** A single blank at `p` is skipped and nothing more. */
  lemma OneBlank(s: string, p: nat)
    requires p + 1 < |s| && s[p] == ' ' && !IsSpace(s[p + 1])
    ensures EatWhitespace(s, p) == p + 1
  {
    SpanUnique(s, p, IsSpace, p + 1);
  }

  function CharAt(s: string, q: nat): Option<char> {
    if q < |s| then Some(s[q]) else None
  }

  /** The next non-blank character, if any, with the blanks before it consumed. */
  function Peek(s: string, p: nat): (r: Scanned<Option<char>>)
    requires p <= |s|
    ensures p <= r.pos <= |s|
    ensures r.value.Some? ==> r.pos < |s| && r.value.value == s[r.pos] && !IsSpace(r.value.value)
    ensures r.value.None? ==> r.pos == |s|
    ensures AllIn(s, p, r.pos, IsSpace)
  {
    EatWhitespaceSkipsBlanks(s, p);
    var q := EatWhitespace(s, p);
    Scanned(CharAt(s, q), q)
  }

  /** `w` is read from `p` and ends at `q`: blanks, then `w`, which is a
      longest run of characters satisfying `P`. */
  ghost predicate SpacedWord(s: string, p: nat, P: char -> bool, w: string, q: nat) {
    && p + |w| <= q <= |s|
    && AllIn(s, p, q - |w|, IsSpace)
    && (q - |w| == |s| || !IsSpace(s[q - |w|]))
    && s[q - |w|..q] == w
    && AllIn(s, q - |w|, q, P)
    && (q == |s| || !P(s[q]))
  }

  /** Some cursor ends `w` read from `p`. */
  ghost predicate ReadsWord(s: string, p: nat, P: char -> bool, w: string) {
    exists q :: SpacedWord(s, p, P, w, q)
  }

  /** Skip blanks, then read the longest run of `P`. */
  function Word(s: string, p: nat, P: char -> bool): (r: Scanned<string>)
    requires p <= |s|
    ensures p + |r.value| <= r.pos <= |s|
  {
    var j := EatWhitespace(s, p);
    var q := Span(s, j, P);
    Scanned(s[j..q], q)
  }

  /** What `Word` reads is a blank-prefixed longest run of `P`. */
  lemma WordSpec(s: string, p: nat, P: char -> bool)
    requires p <= |s|
    ensures SpacedWord(s, p, P, Word(s, p, P).value, Word(s, p, P).pos)
  {
    SpanAll(s, p, IsSpace);
    SpanAll(s, EatWhitespace(s, p), P);
  }

  /** A blank-free `P` reads at most one word from any cursor. */
  lemma SpacedWordUnique(s: string, p: nat, P: char -> bool, w: string, q: nat)
    requires forall c :: P(c) ==> !IsSpace(c)
    requires SpacedWord(s, p, P, w, q)
    ensures Word(s, p, P) == Scanned(w, q)
  {
    var j := q - |w|;
    SpanUnique(s, p, IsSpace, j);
    SpanUnique(s, j, P, q);
  }

  /** Skips blanks, then consumes and returns the longest run of `[A-Za-z_]`,
      possibly empty. */
  function GetIdentifier(s: string, p: nat): (r: Scanned<string>)
    requires p <= |s|
    ensures p + |r.value| <= r.pos <= |s|
  {
    Word(s, p, IsIdentChar)
  }

  /** The identifier read from `p` is the longest run of `[A-Za-z_]` after
      the blanks at `p`, it may be empty, and nothing after it is consumed. */
  lemma GetIdentifierSpec(s: string, p: nat)
    requires p <= |s|
    ensures var r := GetIdentifier(s, p);
            var j := r.pos - |r.value|;
            && p <= j
            && (forall i :: p <= i < j ==> IsSpace(s[i]))
            && (j == |s| || !IsSpace(s[j]))
            && s[j..r.pos] == r.value
            && (forall i :: 0 <= i < |r.value| ==> IsIdentChar(r.value[i]))
            && (r.pos == |s| || !IsIdentChar(s[r.pos]))
  {
    WordSpec(s, p, IsIdentChar);
    var r := GetIdentifier(s, p);
    var j := r.pos - |r.value|;
    forall i | 0 <= i < |r.value|
      ensures IsIdentChar(r.value[i])
    {
      assert r.value[i] == s[j + i];
    }
  }

  /** Every character of `w` may appear in an identifier. */
  predicate IsIdentifier(w: string) {
    forall i :: 0 <= i < |w| ==> IsIdentChar(w[i])
  }

  /** The input at `p` reads `w`. */
  ghost predicate Matches(s: string, p: nat, w: string) {
    p + |w| <= |s| && forall i :: 0 <= i < |w| ==> s[p + i] == w[i]
  }

  /** An identifier written at `p` and followed by a character that does not
      continue it is exactly what `GetIdentifier` reads there (for the empty
      identifier, provided no blank is skipped first). */
  lemma IdentifierIs(s: string, p: nat, w: string)
    requires Matches(s, p, w) && IsIdentifier(w)
    requires p + |w| == |s| || !IsIdentChar(s[p + |w|])
    requires |w| > 0 || p == |s| || !IsSpace(s[p])
    ensures GetIdentifier(s, p) == Scanned(w, p + |w|)
  {
    assert s[p..p + |w|] == w;
    assert AllIn(s, p, p + |w|, IsIdentChar) by {
      forall k | p <= k < p + |w|
        ensures IsIdentChar(s[k])
      {
        assert s[p + (k - p)] == w[k - p];
      }
    }
    if |w| > 0 {
      assert s[p + 0] == w[0];
    }
    assert SpacedWord(s, p, IsIdentChar, w, p + |w|);
    SpacedWordUnique(s, p, IsIdentChar, w, p + |w|);
  }

  /** `in >> std::string`: skips blanks, then reads a blank-delimited token. */
  function ReadToken(s: string, p: nat): (r: Scanned<string>)
    requires p <= |s|
    ensures p + |r.value| <= r.pos <= |s|
  {
    Word(s, p, NotSpace)
  }

  /** A blank-free word written at `p` and followed by a blank or the end is
      exactly the token `ReadToken` reads there. */
  lemma TokenIs(s: string, p: nat, w: string)
    requires Matches(s, p, w) && |w| > 0
    requires forall i :: 0 <= i < |w| ==> !IsSpace(w[i])
    requires p + |w| == |s| || IsSpace(s[p + |w|])
    ensures ReadToken(s, p) == Scanned(w, p + |w|)
  {
    assert s[p..p + |w|] == w;
    assert AllIn(s, p, p + |w|, NotSpace) by {
      forall k | p <= k < p + |w|
        ensures NotSpace(s[k])
      {
        assert s[p + (k - p)] == w[k - p];
      }
    }
    assert s[p + 0] == w[0];
    assert SpacedWord(s, p, NotSpace, w, p + |w|);
    SpacedWordUnique(s, p, NotSpace, w, p + |w|);
  }

  /** Every character of `w` is a blank. */
  predicate Blanks(w: string) {
    forall i :: 0 <= i < |w| ==> IsSpace(w[i])
  }

  /** Reading `a + b` at `p` is reading `a` there and `b` right after it. */
  lemma MatchesConcat(s: string, p: nat, a: string, b: string)
    requires Matches(s, p, a + b)
    ensures Matches(s, p, a) && Matches(s, p + |a|, b)
  {
    forall i | 0 <= i < |a|
      ensures s[p + i] == a[i]
    {
      assert s[p + i] == (a + b)[i];
    }
    forall i | 0 <= i < |b|
      ensures s[p + |a| + i] == b[i]
    {
      assert s[p + (|a| + i)] == (a + b)[|a| + i];
    }
  }

  /** A run of blanks written at `p` and followed by a non-blank (or the
      end) is exactly what `EatWhitespace` skips. */
  lemma BlanksSkipped(s: string, p: nat, b: string)
    requires Matches(s, p, b) && Blanks(b)
    requires p + |b| == |s| || !IsSpace(s[p + |b|])
    ensures EatWhitespace(s, p) == p + |b|
  {
    assert AllIn(s, p, p + |b|, IsSpace) by {
      forall k | p <= k < p + |b|
        ensures IsSpace(s[k])
      {
        assert s[p + (k - p)] == b[k - p];
      }
    }
    SpanUnique(s, p, IsSpace, p + |b|);
  }

  /** Blanks, then an identifier not continued after it: `GetIdentifier`
      skips the blanks and reads exactly that identifier. */
  lemma IdentifierAfterBlanks(s: string, p: nat, b: string, w: string)
    requires Matches(s, p, b) && Blanks(b)
    requires Matches(s, p + |b|, w) && IsIdentifier(w) && |w| > 0
    requires p + |b| + |w| == |s| || !IsIdentChar(s[p + |b| + |w|])
    ensures GetIdentifier(s, p) == Scanned(w, p + |b| + |w|)
  {
    var j := p + |b|;
    assert s[j + 0] == w[0] && IsIdentChar(w[0]);
    BlanksSkipped(s, p, b);
    IdentifierIs(s, j, w);
    SpanUnique(s, j, IsSpace, j);
  }

  /** Blanks, then a blank-free word followed by a blank or the end:
      `ReadToken` skips the blanks and reads exactly that word. */
  lemma TokenAfterBlanks(s: string, p: nat, b: string, w: string)
    requires Matches(s, p, b) && Blanks(b)
    requires Matches(s, p + |b|, w) && |w| > 0
    requires forall i :: 0 <= i < |w| ==> !IsSpace(w[i])
    requires p + |b| + |w| == |s| || IsSpace(s[p + |b| + |w|])
    ensures ReadToken(s, p) == Scanned(w, p + |b| + |w|)
  {
    var j := p + |b|;
    assert s[j + 0] == w[0];
    BlanksSkipped(s, p, b);
    TokenIs(s, j, w);
    SpanUnique(s, j, IsSpace, j);
  }

  /** Reads a token and insists that it is `expected`. */
  function ExpectText(s: string, p: nat, expected: string): (r: Result<nat>)
    requires p <= |s|
    ensures r.Success? ==> p + |expected| <= r.value <= |s|
  {
    var tok := ReadToken(s, p);
    if tok.value == expected then Success(tok.pos) else Fail(SyntaxError, tok.pos)
  }

  /** `ExpectText` succeeds exactly when the next token is `expected`, and then
      stops right after it. */
  lemma ExpectTextSpec(s: string, p: nat, expected: string)
    requires p <= |s|
    ensures var r := ExpectText(s, p, expected);
            && (r.Success? ==> SpacedWord(s, p, NotSpace, expected, r.value))
            && (r.Failure? ==> forall q :: !SpacedWord(s, p, NotSpace, expected, q))
  {
    WordSpec(s, p, NotSpace);
    forall q: nat | SpacedWord(s, p, NotSpace, expected, q)
      ensures ExpectText(s, p, expected).Success?
    {
      SpacedWordUnique(s, p, NotSpace, expected, q);
    }
  }

  /** A whole control tag spans `k..e`: `{%`, anything without `%`, then `%}`. */
  ghost predicate ControlTagAt(s: string, k: nat, e: nat) {
    && k + 4 <= e <= |s|
    && s[k] == '{' && s[k + 1] == '%'
    && s[e - 2] == '%' && s[e - 1] == '}'
    && forall i :: k + 2 <= i < e - 2 ==> s[i] != '%'
  }

  predicate NotPercent(c: char) {
    c != '%'
  }

  /** Skips blanks and consumes one whole control tag, whatever its name. */
  function EatTag(s: string, p: nat): (r: Result<nat>)
    requires p <= |s|
    ensures r.Success? ==> p + 4 <= r.value <= |s| && s[r.value - 2] == '%' && s[r.value - 1] == '}'
  {
    var k := EatWhitespace(s, p);
    if k + 1 >= |s| || s[k] != '{' || s[k + 1] != '%' then Fail(SyntaxError, k)
    else
      var j := Span(s, k + 2, NotPercent);
      if j == |s| then Fail(SyntaxError, j)
      else if j + 1 == |s| || s[j + 1] != '}' then Fail(SyntaxError, j + 1)
      else Success(j + 2)
  }

  /** `EatTag` consumes, after the blanks, exactly the first whole control
      tag, and fails exactly when there is none there. */
  lemma EatTagSpec(s: string, p: nat)
    requires p <= |s|
    ensures var k := EatWhitespace(s, p);
            var r := EatTag(s, p);
            && (r.Success? ==> ControlTagAt(s, k, r.value))
            && (r.Failure? ==> forall e :: !ControlTagAt(s, k, e))
  {
    var k := EatWhitespace(s, p);
    if k + 1 < |s| && s[k] == '{' && s[k + 1] == '%' {
      SpanAll(s, k + 2, NotPercent);
    }
  }

  /** Lookahead for a control tag named `tag`. It returns no cursor: the
      stream position after the call is the one before it. */
  function IsNextTag(s: string, p: nat, tag: string): (b: bool)
    requires p <= |s|
    ensures b ==> p + 2 <= |s| && s[p] == '{' && s[p + 1] == '%'
  {
    p + 2 <= |s| && s[p] == '{' && s[p + 1] == '%' && GetIdentifier(s, p + 2).value == tag
  }

  /** `{% name` written at `p`, with one blank after the `{%`: the lookahead
      sees a control tag named `name` there. */
  lemma NextTagIs(s: string, p: nat, name: string)
    requires p + 3 <= |s| && s[p] == '{' && s[p + 1] == '%' && s[p + 2] == ' '
    requires Matches(s, p + 3, name) && IsIdentifier(name) && |name| > 0
    requires p + 3 + |name| == |s| || !IsIdentChar(s[p + 3 + |name|])
    ensures IsNextTag(s, p, name)
  {
    assert IsIdentChar(name[0]) && s[p + 3] == name[0];
    OneBlank(s, p + 2);
    SpanUnique(s, p + 3, IsSpace, p + 3);
    IdentifierIs(s, p + 3, name);
  }

  /** `IsNextTag` holds exactly when the input at `p` is `{%`, optional blanks
      and an identifier equal to `tag`. */
  lemma IsNextTagIff(s: string, p: nat, tag: string)
    requires p <= |s|
    ensures IsNextTag(s, p, tag) <==>
      (p + 2 <= |s| && s[p] == '{' && s[p + 1] == '%' && ReadsWord(s, p + 2, IsIdentChar, tag))
  {
    if p + 2 <= |s| && s[p] == '{' && s[p + 1] == '%' {
      var id := Word(s, p + 2, IsIdentChar);
      WordSpec(s, p + 2, IsIdentChar);
      if ReadsWord(s, p + 2, IsIdentChar, tag) {
        var q :| SpacedWord(s, p + 2, IsIdentChar, tag, q);
        SpacedWordUnique(s, p + 2, IsIdentChar, tag, q);
      }
    }
  }
}
