/** Properties of the renderer that relate several calls or whole inputs. */
module Properties {
  import opened Results
  import opened Entities
  import opened Scanner
  import opened Parser
  import opened Renderer
  import opened Pipeline

  /** A template without `{{` or `{%` renders to itself, and the context is
      left as it was. */
  lemma RenderTagFree(e: Engine, s: string, ctx: Context)
    requires forall i :: 0 <= i < |s| ==> !IsTagAt(s, i)
    ensures Render(e, s, ctx) == Success(Rendered(s, |s|, ctx))
  {
    StreamStopsAt(s, 0, |s|);
    assert s[0..|s|] == s;
  }

  /** One round of the render loop: the literal text up to the next tag,
      then what the tag writes, then the render of the rest from where the
      tag stopped and in the context it left; the first error ends the
      render. */
  lemma RenderFromStep(e: Engine, s: string, p: nat, k: nat, ctx: Context)
    requires p <= k < |s| && IsTagAt(s, k)
    requires forall i :: p <= i < k ==> !IsTagAt(s, i)
    ensures var t := ProcessTag(e, s, k, ctx);
            var r := RenderFrom(e, s, p, ctx);
            && (t.Failure? ==> r == Failure(t.error))
            && (t.Success? ==>
                  var rest := RenderFrom(e, s, t.value.pos, t.value.ctx);
                  && (rest.Failure? ==> r == Failure(rest.error))
                  && (rest.Success? ==>
                        r == Success(Rendered(s[p..k] + t.value.out + rest.value.out, |s|, rest.value.ctx))))
  {
    StreamStopsAt(s, p, k);
  }

  /** With no tag left from `p`, the render copies the rest of the input
      and keeps the context. */
  lemma RenderFromEnd(e: Engine, s: string, p: nat, ctx: Context)
    requires p <= |s|
    requires forall i :: p <= i < |s| ==> !IsTagAt(s, i)
    ensures RenderFrom(e, s, p, ctx) == Success(Rendered(s[p..], |s|, ctx))
  {
    StreamStopsAt(s, p, |s|);
    assert s[p..|s|] == s[p..];
  }

  /** A template holding one tag: the render is the text before the tag,
      what the tag writes, and the text after it, with the context as the
      tag left it. */
  lemma RenderOneTag(e: Engine, s: string, k: nat, ctx: Context)
    requires k < |s| && IsTagAt(s, k)
    requires forall i :: 0 <= i < k ==> !IsTagAt(s, i)
    requires ProcessTag(e, s, k, ctx).Success?
    requires forall i :: ProcessTag(e, s, k, ctx).value.pos <= i < |s| ==> !IsTagAt(s, i)
    ensures var t := ProcessTag(e, s, k, ctx).value;
            Render(e, s, ctx) == Success(Rendered(s[..k] + t.out + s[t.pos..], |s|, t.ctx))
  {
    var t := ProcessTag(e, s, k, ctx).value;
    StreamStopsAt(s, t.pos, |s|);
    assert RenderFrom(e, s, t.pos, t.ctx) == Success(Rendered(s[t.pos..|s|], |s|, t.ctx));
    StreamStopsAt(s, 0, k);
    assert s[t.pos..|s|] == s[t.pos..];
    assert s[0..k] == s[..k];
  }

  /** Up to a control tag named `tag`, with no tag before it, the body is
      copied verbatim and the lookahead leaves the tag in the input. */
  lemma UntilTagCopiesPlainText(e: Engine, s: string, p: nat, k: nat, ctx: Context, tag: string)
    requires p <= k <= |s|
    requires forall i :: p <= i < k ==> !IsTagAt(s, i)
    requires IsNextTag(s, k, tag)
    ensures ProcessUntilTag(e, s, p, ctx, tag) == Success(Rendered(s[p..k], k, ctx))
  {
    StreamStopsAt(s, p, k);
  }

  /** After a control tag exactly one directly following newline is
      consumed, never a second one; after a variable tag none is. */
  lemma ChompOnlyAfterControlTags(e: Engine, s: string, p: nat, ctx: Context)
    requires p + 1 < |s| && s[p] == '{'
    ensures s[p + 1] == '%' ==>
              var h := HandleExpressionTag(e, s, EatWhitespace(s, p + 2), ctx);
              var r := ProcessTag(e, s, p, ctx);
              && (r.Success? <==> h.Success?)
              && (r.Success? ==>
                    && r.value.out == h.value.out && r.value.ctx == h.value.ctx
                    && (h.value.pos < |s| && s[h.value.pos] == '\n' ==> r.value.pos == h.value.pos + 1)
                    && (h.value.pos == |s| || s[h.value.pos] != '\n' ==> r.value.pos == h.value.pos))
    ensures s[p + 1] == '{' ==>
              ProcessTag(e, s, p, ctx) == HandleVariableTag(e, s, EatWhitespace(s, p + 2), ctx)
  {
  }

  /** `{{ name | f1 | ... }}` as a template writes it: blanks `b0` after
      `{{`, the name, blanks `b1`, then the filter chain. */
  function VariableTag(b0: string, name: string, b1: string, links: seq<Link>): string {
    "{{" + b0 + name + b1 + FilterChain(links) + "}}"
  }

  /** `{{ name.field | f1 | ... }}` as a template writes it. */
  function FieldTag(b0: string, name: string, field: string, links: seq<Link>): string {
    "{{" + b0 + name + "." + field + FilterChain(links) + "}}"
  }

  /** The pieces of a variable tag written at `p`. */
  lemma VariableTagPieces(s: string, p: nat, b0: string, name: string, b1: string, links: seq<Link>)
    requires Matches(s, p, VariableTag(b0, name, b1, links))
    ensures var m := p + 2 + |b0|;
            var q := m + |name| + |b1|;
            var close := q + |FilterChain(links)|;
            && close + 2 == p + |VariableTag(b0, name, b1, links)| <= |s|
            && s[p] == '{' && s[p + 1] == '{'
            && Matches(s, p + 2, b0) && Matches(s, m, name) && Matches(s, m + |name|, b1)
            && Matches(s, q, FilterChain(links))
            && s[close] == '}' && s[close + 1] == '}'
  {
    var chain := FilterChain(links);
    var q := p + 2 + |b0| + |name| + |b1|;
    MatchesConcat(s, p, "{{" + b0 + name + b1 + chain, "}}");
    MatchesConcat(s, p, "{{" + b0 + name + b1, chain);
    MatchesConcat(s, p, "{{" + b0 + name, b1);
    MatchesConcat(s, p, "{{" + b0, name);
    MatchesConcat(s, p, "{{", b0);
    assert s[p + 0] == "{{"[0] && s[p + 1] == "{{"[1];
    assert s[q + |chain| + 0] == "}}"[0] && s[q + |chain| + 1] == "}}"[1];
  }

  /** The pieces of a field tag written at `p`. */
  lemma FieldTagPieces(s: string, p: nat, b0: string, name: string, field: string, links: seq<Link>)
    requires Matches(s, p, FieldTag(b0, name, field, links))
    ensures var m := p + 2 + |b0|;
            var q := m + |name| + 1 + |field|;
            var close := q + |FilterChain(links)|;
            && close + 2 == p + |FieldTag(b0, name, field, links)| <= |s|
            && s[p] == '{' && s[p + 1] == '{'
            && Matches(s, p + 2, b0) && Matches(s, m, name) && s[m + |name|] == '.'
            && Matches(s, m + |name| + 1, field)
            && Matches(s, q, FilterChain(links))
            && s[close] == '}' && s[close + 1] == '}'
  {
    var chain := FilterChain(links);
    var m := p + 2 + |b0|;
    var q := m + |name| + 1 + |field|;
    MatchesConcat(s, p, "{{" + b0 + name + "." + field + chain, "}}");
    MatchesConcat(s, p, "{{" + b0 + name + "." + field, chain);
    MatchesConcat(s, p, "{{" + b0 + name + ".", field);
    MatchesConcat(s, p, "{{" + b0 + name, ".");
    MatchesConcat(s, p, "{{" + b0, name);
    MatchesConcat(s, p, "{{", b0);
    assert s[p + 0] == "{{"[0] && s[p + 1] == "{{"[1];
    assert s[m + |name| + 0] == "."[0];
    assert s[q + |chain| + 0] == "}}"[0] && s[q + |chain| + 1] == "}}"[1];
  }

  /** The blanks after `{{` end at the reference: `ProcessTag` hands the
      rest of the tag to the variable tag handler from there. */
  lemma VariableTagOpens(e: Engine, s: string, p: nat, ctx: Context, b0: string, m: nat)
    requires m == p + 2 + |b0| && m < |s|
    requires s[p] == '{' && s[p + 1] == '{'
    requires Matches(s, p + 2, b0) && Blanks(b0) && !IsSpace(s[m])
    ensures ProcessTag(e, s, p, ctx) == HandleVariableTag(e, s, m, ctx)
  {
    BlanksSkipped(s, p + 2, b0);
    ChompOnlyAfterControlTags(e, s, p, ctx);
  }

  /** `{{ name | f1 | ... }}` for a text-valued `name`, whatever blanks it
      holds: the tag writes the text after every filter, left to right,
      consumes exactly through `}}` (no newline after it is dropped) and
      leaves the context alone; it fails exactly when a filter is
      unregistered. */
  lemma VariableTagWritesFilteredText(e: Engine, s: string, p: nat, ctx: Context, b0: string, name: string, b1: string, links: seq<Link>)
    requires Blanks(b0) && Blanks(b1) && LinksOk(links)
    requires IsIdentifier(name) && (|name| > 0 || b1 == "") && name in ctx && ctx[name].Text?
    requires Matches(s, p, VariableTag(b0, name, b1, links))
    ensures var expected := Apply(e, Names(links), ctx[name].text, ctx);
            var r := ProcessTag(e, s, p, ctx);
            && (r.Success? <==> expected.Some?)
            && (r.Success? ==> r.value == Rendered(expected.value, p + |VariableTag(b0, name, b1, links)|, ctx))
            && (r.Failure? ==> r.error.kind == UnknownFilter)
  {
    VariableTagPieces(s, p, b0, name, b1, links);
    VariableTagAt(e, s, p, ctx, b0, name, b1, links);
  }

  /** `VariableTagWritesFilteredText`, on the pieces of the tag. */
  lemma VariableTagAt(e: Engine, s: string, p: nat, ctx: Context, b0: string, name: string, b1: string, links: seq<Link>)
    requires Blanks(b0) && Blanks(b1) && LinksOk(links)
    requires IsIdentifier(name) && (|name| > 0 || b1 == "") && name in ctx && ctx[name].Text?
    requires var m := p + 2 + |b0|;
             var q := m + |name| + |b1|;
             var close := q + |FilterChain(links)|;
             && close + 1 < |s|
             && s[p] == '{' && s[p + 1] == '{'
             && Matches(s, p + 2, b0) && Matches(s, m, name) && Matches(s, m + |name|, b1)
             && Matches(s, q, FilterChain(links))
             && s[close] == '}' && s[close + 1] == '}'
    ensures var expected := Apply(e, Names(links), ctx[name].text, ctx);
            var r := ProcessTag(e, s, p, ctx);
            && (r.Success? <==> expected.Some?)
            && (r.Success? ==> r.value == Rendered(expected.value, p + 2 + |b0| + |name| + |b1| + |FilterChain(links)| + 2, ctx))
            && (r.Failure? ==> r.error.kind == UnknownFilter)
  {
    var m := p + 2 + |b0|;
    var expected := Apply(e, Names(links), ctx[name].text, ctx);
    VariableTagBody(e, s, m, ctx, name, b1, links);
    VariableTagEntry(s, p, b0, name, b1, links);
    VariableTagOpens(e, s, p, ctx, b0, m);
    SameOutcome(ProcessTag(e, s, p, ctx), HandleVariableTag(e, s, m, ctx), expected, m + |name| + |b1| + |FilterChain(links)| + 2, ctx);
  }

  /** A tag that behaves as its handler writes what the handler writes. */
  lemma SameOutcome(r: Result<Rendered>, h: Result<Rendered>, expected: Option<string>, end: nat, ctx: Context)
    requires r == h
    requires && (h.Success? <==> expected.Some?)
             && (h.Success? ==> h.value == Rendered(expected.value, end, ctx))
             && (h.Failure? ==> h.error.kind == UnknownFilter)
    ensures && (r.Success? <==> expected.Some?)
            && (r.Success? ==> r.value == Rendered(expected.value, end, ctx))
            && (r.Failure? ==> r.error.kind == UnknownFilter)
  {
  }

  /** The reference of a variable tag starts with no blank before it. */
  lemma VariableTagEntry(s: string, p: nat, b0: string, name: string, b1: string, links: seq<Link>)
    requires IsIdentifier(name) && (|name| > 0 || b1 == "")
    requires var m := p + 2 + |b0|;
             var q := m + |name| + |b1|;
             var close := q + |FilterChain(links)|;
             && close + 1 < |s|
             && Matches(s, m, name) && Matches(s, q, FilterChain(links))
             && s[close] == '}'
    ensures p + 2 + |b0| < |s| && !IsSpace(s[p + 2 + |b0|])
  {
    var m := p + 2 + |b0|;
    ChainOpens(s, m + |name| + |b1|, links);
    if |name| > 0 {
      assert s[m + 0] == name[0];
    }
  }

  /** `{{ name.field | f1 | ... }}` for an object `name` whose `field` is
      a text: the tag writes that text after every filter, ends after
      `}}` and leaves the context alone; it fails exactly when a filter is
      unregistered. */
  lemma FieldTagWritesFilteredText(e: Engine, s: string, p: nat, ctx: Context, b0: string, name: string, field: string, links: seq<Link>)
    requires Blanks(b0) && LinksOk(links) && IsIdentifier(name) && IsIdentifier(field)
    requires name in ctx && ctx[name].Object? && field in ctx[name].fields && ctx[name].fields[field].Text?
    requires Matches(s, p, FieldTag(b0, name, field, links))
    ensures var expected := Apply(e, Names(links), ctx[name].fields[field].text, ctx);
            var r := ProcessTag(e, s, p, ctx);
            && (r.Success? <==> expected.Some?)
            && (r.Success? ==> r.value == Rendered(expected.value, p + |FieldTag(b0, name, field, links)|, ctx))
            && (r.Failure? ==> r.error.kind == UnknownFilter)
  {
    FieldTagPieces(s, p, b0, name, field, links);
    FieldTagAt(e, s, p, ctx, b0, name, field, links);
  }

  /** `FieldTagWritesFilteredText`, on the pieces of the tag. */
  lemma FieldTagAt(e: Engine, s: string, p: nat, ctx: Context, b0: string, name: string, field: string, links: seq<Link>)
    requires Blanks(b0) && LinksOk(links) && IsIdentifier(name) && IsIdentifier(field)
    requires name in ctx && ctx[name].Object? && field in ctx[name].fields && ctx[name].fields[field].Text?
    requires var m := p + 2 + |b0|;
             var q := m + |name| + 1 + |field|;
             var close := q + |FilterChain(links)|;
             && close + 1 < |s|
             && s[p] == '{' && s[p + 1] == '{'
             && Matches(s, p + 2, b0) && Matches(s, m, name) && s[m + |name|] == '.'
             && Matches(s, m + |name| + 1, field)
             && Matches(s, q, FilterChain(links))
             && s[close] == '}' && s[close + 1] == '}'
    ensures var expected := Apply(e, Names(links), ctx[name].fields[field].text, ctx);
            var r := ProcessTag(e, s, p, ctx);
            && (r.Success? <==> expected.Some?)
            && (r.Success? ==> r.value == Rendered(expected.value, p + 2 + |b0| + |name| + 1 + |field| + |FilterChain(links)| + 2, ctx))
            && (r.Failure? ==> r.error.kind == UnknownFilter)
  {
    var m := p + 2 + |b0|;
    var expected := Apply(e, Names(links), ctx[name].fields[field].text, ctx);
    FieldTagBody(e, s, m, ctx, name, field, links);
    FieldTagEntry(s, m, name);
    VariableTagOpens(e, s, p, ctx, b0, m);
    SameOutcome(ProcessTag(e, s, p, ctx), HandleVariableTag(e, s, m, ctx), expected, m + |name| + 1 + |field| + |FilterChain(links)| + 2, ctx);
  }

  /** The reference of a field tag starts with no blank before it. */
  lemma FieldTagEntry(s: string, m: nat, name: string)
    requires m + |name| < |s| && Matches(s, m, name) && s[m + |name|] == '.'
    requires IsIdentifier(name)
    ensures !IsSpace(s[m])
  {
    if |name| > 0 {
      assert s[m + 0] == name[0];
    }
  }

  /** A variable tag whose reference does not resolve reports the
      reference's error, and one that resolves to anything but text is a
      TypeError where the reference ends. */
  lemma VariableTagNeedsText(e: Engine, s: string, p: nat, ctx: Context)
    requires p <= |s|
    ensures var n := ParseNamedEntity(s, p, ctx);
            var r := HandleVariableTag(e, s, p, ctx);
            && (n.Failure? ==> r == Failure(n.error))
            && (n.Success? && !n.value.value.entity.Text? ==> r == Failure(Error(TypeError, n.value.pos)))
  {
  }

  /** `{{ xs ...` where `xs` is bound to a sequence: the tag is a TypeError
      at the end of the blanks after the name, whatever follows. */
  lemma SequenceTagFails(e: Engine, s: string, p: nat, ctx: Context, b0: string, name: string, b1: string)
    requires Blanks(b0) && Blanks(b1) && IsIdentifier(name) && |name| > 0
    requires name in ctx && ctx[name].Sequence?
    requires var q := p + 2 + |b0| + |name| + |b1|;
             && q < |s|
             && Matches(s, p, "{{" + b0 + name + b1)
             && !IsSpace(s[q]) && !IsIdentChar(s[q])
    ensures ProcessTag(e, s, p, ctx) == Failure(Error(TypeError, p + 2 + |b0| + |name| + |b1|))
  {
    var m := p + 2 + |b0|;
    var q := m + |name| + |b1|;
    MatchesConcat(s, p, "{{" + b0 + name, b1);
    MatchesConcat(s, p, "{{" + b0, name);
    MatchesConcat(s, p, "{{", b0);
    assert s[p + 0] == "{{"[0] && s[p + 1] == "{{"[1];
    assert s[m + 0] == name[0];
    NamedAt(s, m, ctx, name, b1);
    VariableTagNeedsText(e, s, m, ctx);
    VariableTagOpens(e, s, p, ctx, b0, m);
  }

  /** `{% set name 'w'%}` for a text-valued `name`, from the blank after
      the tag name: the variable now holds `w`, nothing else changes,
      nothing is written, and the cursor ends just after `%}`. */
  lemma SetTextFromLiteral(s: string, p: nat, ctx: Context, name: string, w: string)
    requires |name| > 0 && IsIdentifier(name) && name in ctx && ctx[name].Text?
    requires forall i :: 0 <= i < |w| ==> w[i] != '\''
    requires var q := p + 1 + |name|;
             var c := q + 3 + |w|;
             && c + 2 <= |s|
             && s[p] == ' ' && Matches(s, p + 1, name) && s[q] == ' '
             && s[q + 1..c] == Quote(w)
             && s[c] == '%' && s[c + 1] == '}'
    ensures HandleSet(s, p, ctx) == Success(Rendered([], p + |name| + |w| + 6, ctx[name := Text(w)]))
  {
    var q := p + 1 + |name|;
    var c := q + 3 + |w|;
    assert s[p + 1 + 0] == name[0];
    OneBlank(s, p);
    assert GetIdentifier(s, p) == Scanned(name, q) by {
      IdentifierIs(s, p + 1, name);
    }
    assert s[q + 1] == '\'' by {
      assert s[q + 1] == s[q + 1..c][0];
    }
    OneBlank(s, q);
    assert ParseNamedEntity(s, p, ctx) == Success(Scanned(Resolved(Var(name), ctx[name]), q + 1));
    assert ParseEntity(s, q + 1, ctx) == Success(Scanned(Text(w), c)) by {
      StringLiteralRoundTrip(s, q + 1, ctx, w);
    }
    assert EatWhitespace(s, c) == c;
    assert Assign(ctx, Var(name), Text(w), c) == Success(ctx[name := Text(w)]);
    assert CloseControlTag(s, c, ctx[name := Text(w)]) == Success(Rendered([], c + 2, ctx[name := Text(w)]));
  }

  /** A control tag runs the handler its blank-delimited name selects, from
      the cursor right after the name. */
  lemma ControlTagRunsItsHandler(e: Engine, s: string, p: nat, ctx: Context)
    requires p <= |s|
    ensures var tok := ReadToken(s, p);
            var r := HandleExpressionTag(e, s, p, ctx);
            && (tok.value == "for" ==> r == HandleFor(e, s, tok.pos, ctx))
            && (tok.value == "set" ==> r == HandleSet(s, tok.pos, ctx))
            && (tok.value == "if" ==> r == HandleIf(s, tok.pos, ctx))
            && (tok.value == "unless" ==> r == Success(Rendered([], tok.pos, ctx)))
            && (tok.value !in {"for", "set", "if", "unless"} ==> r == Failure(Error(UnknownHandler, tok.pos)))
  {
  }

  /** `set target source`: both are parsed, in that order, and their errors
      are the tag's. A target of another variant than the source is a
      TypeError; otherwise the tag succeeds exactly when `%}` closes it, and
      then the target holds the source value (a sequence target is left
      alone). */
  lemma SetWritesSource(s: string, p: nat, ctx: Context)
    requires p <= |s|
    ensures var r := HandleSet(s, p, ctx);
            var target := ParseNamedEntity(s, p, ctx);
            && (target.Failure? ==> r == Failure(target.error))
            && (target.Success? ==>
                  var t := target.value.value;
                  var source := ParseEntity(s, target.value.pos, ctx);
                  && (source.Failure? ==> r == Failure(source.error))
                  && (source.Success? && !t.entity.Sequence? && !SameVariant(t.entity, source.value.value) ==>
                        r == Failure(Error(TypeError, source.value.pos)))
                  && (source.Success? && (t.entity.Sequence? || SameVariant(t.entity, source.value.value)) ==>
                        (r.Success? <==> CloseControlTag(s, source.value.pos, ctx).Success?))
                  && (r.Success? && !t.entity.Sequence? ==> Lookup(r.value.ctx, t.path) == Some(source.value.value))
                  && (r.Success? && t.entity.Sequence? ==> r.value.ctx == ctx))
  {
  }

  /** What rendering up to an awaited tag writes: the literal text before
      the next tag; then, unless that tag is the awaited one, what the tag
      writes followed by what the rest writes, in the context the tag left.
      Any error on the way is the result. */
  lemma UntilTagStep(e: Engine, s: string, p: nat, ctx: Context, tag: string)
    requires p <= |s|
    ensures var lit := StreamUpToTag(s, p);
            var r := ProcessUntilTag(e, s, p, ctx, tag);
            && (IsNextTag(s, lit.pos, tag) ==> r == Success(Rendered(s[p..lit.pos], lit.pos, ctx)))
            && (!IsNextTag(s, lit.pos, tag) ==>
                  var t := ProcessTag(e, s, lit.pos, ctx);
                  && (t.Failure? ==> r == Failure(t.error))
                  && (t.Success? ==>
                        var rest := ProcessUntilTag(e, s, t.value.pos, t.value.ctx, tag);
                        && (rest.Failure? ==> r == Failure(rest.error))
                        && (rest.Success? ==>
                              r == Success(Rendered(s[p..lit.pos] + t.value.out + rest.value.out,
                                                    rest.value.pos, rest.value.ctx)))))
  {
  }

  /** A body holding one tag before the awaited one: what it writes is the
      text before the tag, the tag's output, and the text after it. */
  lemma UntilTagOneTag(e: Engine, s: string, p: nat, k: nat, k2: nat, ctx: Context, tag: string)
    requires p <= k < |s| && IsTagAt(s, k) && !IsNextTag(s, k, tag)
    requires forall i :: p <= i < k ==> !IsTagAt(s, i)
    requires ProcessTag(e, s, k, ctx).Success?
    requires var t := ProcessTag(e, s, k, ctx).value;
             && t.pos <= k2 <= |s| && IsNextTag(s, k2, tag)
             && forall i :: t.pos <= i < k2 ==> !IsTagAt(s, i)
    ensures var t := ProcessTag(e, s, k, ctx).value;
            ProcessUntilTag(e, s, p, ctx, tag) == Success(Rendered(s[p..k] + t.out + s[t.pos..k2], k2, t.ctx))
  {
    var t := ProcessTag(e, s, k, ctx).value;
    UntilTagCopiesPlainText(e, s, t.pos, k2, t.ctx, tag);
    StreamStopsAt(s, p, k);
  }

  /** A body that is the single variable tag `{{x}}`, in a context binding
      `x` to a text, writes that text and stops at the awaited tag. */
  lemma UntilTagVariableBody(e: Engine, s: string, p: nat, ctx: Context, x: string, c: string, tag: string)
    requires IsIdentifier(x)
    requires var q := p + 4 + |x|;
             && q <= |s|
             && s[p] == '{' && s[p + 1] == '{' && Matches(s, p + 2, x)
             && s[q - 2] == '}' && s[q - 1] == '}'
             && IsNextTag(s, q, tag)
    ensures var inner := ctx[x := Text(c)];
            ProcessUntilTag(e, s, p, inner, tag) == Success(Rendered(c, p + 4 + |x|, inner))
  {
    var inner := ctx[x := Text(c)];
    var q := p + 4 + |x|;
    VariableTagAlone(e, s, p, inner, x);
    assert IsTagAt(s, p) && !IsNextTag(s, p, tag);
    UntilTagOneTag(e, s, p, p, q, inner, tag);
    assert s[p..p] + c + s[q..q] == c;
  }

  /** `{{x}}` with no filters writes the text `x` is bound to. */
  lemma VariableTagAlone(e: Engine, s: string, p: nat, ctx: Context, x: string)
    requires IsIdentifier(x) && x in ctx && ctx[x].Text?
    requires var q := p + 4 + |x|;
             && q <= |s|
             && s[p] == '{' && s[p + 1] == '{' && Matches(s, p + 2, x)
             && s[q - 2] == '}' && s[q - 1] == '}'
    ensures ProcessTag(e, s, p, ctx) == Success(Rendered(ctx[x].text, p + 4 + |x|, ctx))
  {
    assert FilterChain([]) == "";
    VariableTagAt(e, s, p, ctx, "", x, "", []);
  }
}
