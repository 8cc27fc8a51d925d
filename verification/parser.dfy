/** The expression parser: literals and named-entity references. */
module Parser {
  import opened Results
  import opened Entities
  import opened Scanner

  /** A named entity as found: where it lives in the context, and its value. */
  datatype Resolved = Resolved(path: Path, entity: Entity)

  /** Reads an identifier and resolves it in `ctx`. Text and sequences are
      returned as found; an object must be followed by `.field`, and the
      field's entity is returned; a number, or an object without `.`, is an
      error. `consumeDot` chooses between the code as written (false: the `.`
      is peeked but left in the input, so the field name read after it is
      always empty) and the evidently intended reading (true: the `.` is
      consumed before the field name). */
  function ParseNamedEntityWith(s: string, p: nat, ctx: Context, consumeDot: bool): (r: Result<Scanned<Resolved>>)
    requires p <= |s|
    ensures r.Success? ==> p <= r.value.pos <= |s|
    ensures r.Success? ==> r.value.value.path.name == GetIdentifier(s, p).value
    ensures r.Success? ==> Lookup(ctx, r.value.value.path) == Some(r.value.value.entity)
    ensures r.Success? && r.value.value.path.Var? ==> r.value.value.entity.Text? || r.value.value.entity.Sequence?
    ensures (r.Failure? && r.error.kind == NameError) <==> GetIdentifier(s, p).value !in ctx
  {
    var id := GetIdentifier(s, p);
    if id.value !in ctx then Fail(NameError, id.pos)
    else
      var ent := ctx[id.value];
      var q := EatWhitespace(s, id.pos);
      match ent
      case Text(_) => Success(Scanned(Resolved(Var(id.value), ent), q))
      case Sequence(_) => Success(Scanned(Resolved(Var(id.value), ent), q))
      case Number(_) => Fail(TypeError, q)
      case Object(fields) =>
        if q < |s| && s[q] == '.' then
          var f := GetIdentifier(s, if consumeDot then q + 1 else q);
          if f.value in fields then Success(Scanned(Resolved(Field(id.value, f.value), fields[f.value]), f.pos))
          else Fail(FieldError, f.pos)
        else Fail(TypeError, q)
  }

  /** The named-entity parser the rest of the model uses: `.` is consumed. */
  function ParseNamedEntity(s: string, p: nat, ctx: Context): (r: Result<Scanned<Resolved>>)
    requires p <= |s|
    ensures r.Success? ==> p <= r.value.pos <= |s|
    ensures r.Success? ==> r.value.value.path.name == GetIdentifier(s, p).value
    ensures r.Success? ==> Lookup(ctx, r.value.value.path) == Some(r.value.value.entity)
    ensures r.Success? && r.value.value.path.Var? ==> r.value.value.entity.Text? || r.value.value.entity.Sequence?
    ensures (r.Failure? && r.error.kind == NameError) <==> GetIdentifier(s, p).value !in ctx
  {
    ParseNamedEntityWith(s, p, ctx, true)
  }

  /** Every case of the named-entity parser, from the identifier read and the
      blanks after it: unbound is a NameError; text and sequences resolve to
      themselves; a number, or an object not followed by `.`, is a
      TypeError; `.field` resolves the field, or is a FieldError when the
      object has no such field. */
  lemma NamedEntitySpec(s: string, p: nat, ctx: Context)
    requires p <= |s|
    ensures var id := GetIdentifier(s, p);
            var q := EatWhitespace(s, id.pos);
            var r := ParseNamedEntity(s, p, ctx);
            && (id.value !in ctx ==> r == Failure(Error(NameError, id.pos)))
            && (id.value in ctx && (ctx[id.value].Text? || ctx[id.value].Sequence?) ==>
                  r == Success(Scanned(Resolved(Var(id.value), ctx[id.value]), q)))
            && (id.value in ctx && ctx[id.value].Number? ==> r == Failure(Error(TypeError, q)))
            && (id.value in ctx && ctx[id.value].Object? && (q == |s| || s[q] != '.') ==>
                  r == Failure(Error(TypeError, q)))
            && (id.value in ctx && ctx[id.value].Object? && q < |s| && s[q] == '.' ==>
                  var f := GetIdentifier(s, q + 1);
                  var fields := ctx[id.value].fields;
                  && (f.value in fields ==> r == Success(Scanned(Resolved(Field(id.value, f.value), fields[f.value]), f.pos)))
                  && (f.value !in fields ==> r == Failure(Error(FieldError, f.pos))))
  {
  }

  /** The named-entity parser exactly as the source reads it. */
  function ParseNamedEntityAsWritten(s: string, p: nat, ctx: Context): (r: Result<Scanned<Resolved>>)
    requires p <= |s|
    ensures r.Success? && r.value.value.path.Field? ==> r.value.value.path.field == ""
  {
    ParseNamedEntityWith(s, p, ctx, false)
  }

  /** `name.field` sits at `p`, followed by neither a blank nor an identifier character. */
  ghost predicate FieldAccessAt(s: string, p: nat, name: string, field: string) {
    var dot := p + |name|;
    var end := dot + 1 + |field|;
    && end <= |s|
    && Matches(s, p, name) && s[dot] == '.' && Matches(s, dot + 1, field)
    && IsIdentifier(name) && IsIdentifier(field)
    && (end == |s| || (!IsIdentChar(s[end]) && !IsSpace(s[end])))
  }

  /** With the `.` consumed, `name.field` resolves to the field's entity for
      every object bound to `name` that has `field`, and the cursor ends just
      after the field name. */
  lemma FieldAccessResolves(s: string, p: nat, ctx: Context, name: string, field: string)
    requires FieldAccessAt(s, p, name, field)
    requires name in ctx && ctx[name].Object? && field in ctx[name].fields
    ensures ParseNamedEntity(s, p, ctx)
         == Success(Scanned(Resolved(Field(name, field), ctx[name].fields[field]), p + |name| + 1 + |field|))
  {
    FieldAccessReads(s, p, name, field);
    var dot := p + |name|;
    IdentifierIs(s, dot + 1, field);
  }

  /** How the scanner reads `name.field`: the name, then the `.` with no
      blank before it. */
  lemma FieldAccessReads(s: string, p: nat, name: string, field: string)
    requires FieldAccessAt(s, p, name, field)
    ensures GetIdentifier(s, p) == Scanned(name, p + |name|)
    ensures EatWhitespace(s, p + |name|) == p + |name|
    ensures s[p + |name|] == '.'
  {
    IdentifierIs(s, p, name);
  }

  /** As written, the same input never reaches the field: the lookup is for
      the empty name, so an object without an empty-named field gives a
      FieldError. */
  lemma AsWrittenFieldAccessFails(s: string, p: nat, ctx: Context, name: string, field: string)
    requires FieldAccessAt(s, p, name, field)
    requires name in ctx && ctx[name].Object? && "" !in ctx[name].fields
    ensures ParseNamedEntityAsWritten(s, p, ctx).Failure?
    ensures ParseNamedEntityAsWritten(s, p, ctx).error.kind == FieldError
  {
    FieldAccessReads(s, p, name, field);
    IdentifierIs(s, p + |name|, "");
  }

  predicate NotQuote(c: char) {
    c != '\''
  }

  /** A string literal at `p`: the characters up to the next `'`, verbatim,
      with no escapes; the cursor ends just past the closing quote. An
      unterminated literal is an error (the source reads past the end forever). */
  function ParseStringLiteral(s: string, p: nat): (r: Result<Scanned<string>>)
    requires p < |s| && s[p] == '\''
    ensures r.Success? ==> p + 2 <= r.value.pos <= |s| && s[r.value.pos - 1] == '\''
    ensures r.Success? ==> p + 2 <= r.value.pos <= |s| && r.value.value == s[p + 1..r.value.pos - 1]
  {
    var j := Span(s, p + 1, NotQuote);
    if j == |s| then Fail(SyntaxError, j) else Success(Scanned(s[p + 1..j], j + 1))
  }

  /** The literal ends at the first quote after the opening one: its text
      holds no quote, and it fails exactly when no closing quote follows. */
  lemma StringLiteralSpec(s: string, p: nat)
    requires p < |s| && s[p] == '\''
    ensures var r := ParseStringLiteral(s, p);
            && (r.Success? ==> forall i :: 0 <= i < |r.value.value| ==> r.value.value[i] != '\'')
            && (r.Failure? <==> forall i :: p < i < |s| ==> s[i] != '\'')
  {
    SpanAll(s, p + 1, NotQuote);
    var r := ParseStringLiteral(s, p);
    if r.Success? {
      forall i | 0 <= i < |r.value.value|
        ensures r.value.value[i] != '\''
      {
        assert r.value.value[i] == s[p + 1 + i];
      }
    }
  }

  /** The number a run of decimal digits denotes. */
  function DecimalValue(d: string): nat
    requires forall i :: 0 <= i < |d| ==> IsDigit(d[i])
  {
    if |d| == 0 then 0
    else
      assert IsDigit(d[|d| - 1]);
      DecimalValue(d[..|d| - 1]) * 10 + (d[|d| - 1] as int - '0' as int)
  }

  /** A number literal: the longest run of decimal digits at `p`. */
  function ParseNumber(s: string, p: nat): (r: Scanned<nat>)
    requires p <= |s|
    ensures p <= r.pos <= |s|
    ensures p <= r.pos <= |s| && forall i :: p <= i < r.pos ==> IsDigit(s[i])
    ensures r.pos < |s| ==> !IsDigit(s[r.pos])
    ensures && p <= r.pos <= |s| && (forall i :: p <= i < r.pos ==> IsDigit(s[i]))
            && r.value == DecimalValue(s[p..r.pos])
  {
    var q := Span(s, p, IsDigit);
    SpanAll(s, p, IsDigit);
    Scanned(DecimalValue(s[p..q]), q)
  }

  /** An entity expression: a string literal, a number literal, a list
      literal (not implemented) or a named entity, chosen by the next
      non-blank character. */
  function ParseEntity(s: string, p: nat, ctx: Context): (r: Result<Scanned<Entity>>)
    requires p <= |s|
    ensures r.Success? ==> p <= r.value.pos <= |s|
  {
    var c := Peek(s, p);
    var q := c.pos;
    if c.value == Some('\'') then
      var lit :- ParseStringLiteral(s, q);
      Success(Scanned(Text(lit.value), lit.pos))
    else if c.value.Some? && IsDigit(c.value.value) then
      var n := ParseNumber(s, q);
      Success(Scanned(Number(n.value), n.pos))
    else if c.value == Some('[') then
      Fail(Unimplemented, q)
    else
      var named :- ParseNamedEntity(s, q, ctx);
      Success(Scanned(named.value.entity, named.pos))
  }

  /** What the first non-blank character selects: a digit starts a number
      literal, `'` a string literal, `[` an unimplemented list literal, and
      anything else a named entity. */
  lemma ParseEntityDispatch(s: string, p: nat, ctx: Context)
    requires p <= |s|
    ensures var c := Peek(s, p);
            var r := ParseEntity(s, p, ctx);
            && (c.value == Some('[') ==> r == Failure(Error(Unimplemented, c.pos)))
            && (c.value.Some? && IsDigit(c.value.value) ==>
                  && r.Success? && r.value.value.Number?
                  && c.pos < r.value.pos <= |s|
                  && (forall i :: c.pos <= i < r.value.pos ==> IsDigit(s[i]))
                  && (r.value.pos == |s| || !IsDigit(s[r.value.pos]))
                  && r.value.value.number == DecimalValue(s[c.pos..r.value.pos]))
            && (c.value == Some('\'') ==> (r.Success? <==> ParseStringLiteral(s, c.pos).Success?))
            && (c.value == Some('\'') && r.Success? ==> r.value.value == Text(ParseStringLiteral(s, c.pos).value.value))
            && (c.value.None? || (c.value.value != '\'' && c.value.value != '[' && !IsDigit(c.value.value)) ==>
                  var named := ParseNamedEntity(s, c.pos, ctx);
                  && (r.Failure? <==> named.Failure?)
                  && (r.Failure? ==> r.error == named.error)
                  && (r.Success? ==> r.value == Scanned(named.value.value.entity, named.value.pos)))
  {
  }

  /** A quoted string literal, as a template writes it. */
  function Quote(w: string): string {
    "'" + w + "'"
  }

  /** Quoting any quote-free text and parsing it back yields that text, and
      the cursor ends just past the closing quote. */
  lemma StringLiteralRoundTrip(s: string, p: nat, ctx: Context, w: string)
    requires forall i :: 0 <= i < |w| ==> w[i] != '\''
    requires p + |w| + 2 <= |s| && s[p..p + |w| + 2] == Quote(w)
    ensures ParseEntity(s, p, ctx) == Success(Scanned(Text(w), p + |w| + 2))
  {
    var quoted := Quote(w);
    var close := p + 1 + |w|;
    assert s[p] == '\'' by {
      SubSlice(s, p, quoted, 0, 1);
      assert s[p] == s[p..p + 1][0];
    }
    assert s[close] == '\'' by {
      SubSlice(s, p, quoted, 1 + |w|, 2 + |w|);
      assert s[close] == s[close..close + 1][0];
    }
    assert s[p + 1..close] == w by {
      SubSlice(s, p, quoted, 1, 1 + |w|);
      assert quoted[1..1 + |w|] == w;
    }
    assert AllIn(s, p + 1, close, NotQuote) by {
      forall i | p + 1 <= i < close
        ensures NotQuote(s[i])
      {
        assert s[i] == s[p + 1..close][i - p - 1];
      }
    }
    assert EatWhitespace(s, p) == p;
    SpanUnique(s, p + 1, NotQuote, close);
  }
}
