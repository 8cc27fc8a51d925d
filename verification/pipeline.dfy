/** The filter pipeline of a variable tag, related to a reference reading:
    the filters a template names, applied one after another. */
module Pipeline {
  import opened Results
  import opened Entities
  import opened Scanner
  import opened Parser
  import opened Renderer

  /** One link of a filter chain as a template writes it: `|`, blanks, the
      filter's name, blanks. */
  datatype Link = Link(before: string, name: string, after: string)

  /** A link the scanner reads back as written: blank runs around a
      non-empty identifier. */
  predicate LinkOk(l: Link) {
    Blanks(l.before) && IsIdentifier(l.name) && |l.name| > 0 && Blanks(l.after)
  }

  predicate LinksOk(links: seq<Link>) {
    forall k :: 0 <= k < |links| ==> LinkOk(links[k])
  }

  /** Where the name of a link written at `p` starts and ends, and where the
      link ends. */
  function NameAt(p: nat, l: Link): nat { p + 1 + |l.before| }
  function NameEnd(p: nat, l: Link): nat { NameAt(p, l) + |l.name| }
  function LinkEnd(p: nat, l: Link): nat { NameEnd(p, l) + |l.after| }

  /** `| f1 | f2 ...` as a template writes a filter chain. */
  function FilterChain(links: seq<Link>): string {
    if |links| == 0 then ""
    else "|" + links[0].before + links[0].name + links[0].after + FilterChain(links[1..])
  }

  /** The filters a chain names, in order. */
  function Names(links: seq<Link>): seq<string> {
    if |links| == 0 then [] else [links[0].name] + Names(links[1..])
  }

  /** The reference meaning of a filter chain: each filter applied to the
      previous one's output, first to last; None if a name is unregistered. */
  function Apply(e: Engine, names: seq<string>, text: string, ctx: Context): Option<string> {
    if |names| == 0 then Some(text)
    else if names[0] !in e.filters then None
    else Apply(e, names[1..], e.filters[names[0]](text, ctx), ctx)
  }

  /** The character at `q` (if any) ends a filter chain: it is neither `|`,
      a blank, nor part of an identifier. */
  predicate EndsChain(s: string, q: nat) {
    q < |s| ==> s[q] != '|' && !IsSpace(s[q]) && !IsIdentChar(s[q])
  }

  /** A chain written at `p` starts with `|`, then the first link's blanks,
      name and blanks, then the rest of the chain. */
  lemma ChainSplit(s: string, p: nat, links: seq<Link>)
    requires |links| > 0
    requires Matches(s, p, FilterChain(links))
    ensures var l := links[0];
            var tail := FilterChain(links[1..]);
            && s[p] == '|'
            && Matches(s, p + 1, l.before)
            && Matches(s, NameAt(p, l), l.name)
            && Matches(s, NameEnd(p, l), l.after)
            && Matches(s, LinkEnd(p, l), tail)
            && LinkEnd(p, l) + |tail| == p + |FilterChain(links)|
  {
    var l := links[0];
    var tail := FilterChain(links[1..]);
    MatchesConcat(s, p, "|" + l.before + l.name + l.after, tail);
    MatchesConcat(s, p, "|" + l.before + l.name, l.after);
    MatchesConcat(s, p, "|" + l.before, l.name);
    MatchesConcat(s, p, "|", l.before);
    assert s[p + 0] == "|"[0];
  }

  /** In a chain that ends at an `EndsChain` character, the character after
      a filter name does not continue it, and the blanks after the name run
      up to a non-blank. */
  lemma LinkEnds(s: string, p: nat, links: seq<Link>)
    requires |links| > 0 && LinkOk(links[0])
    requires Matches(s, p, FilterChain(links))
    requires EndsChain(s, p + |FilterChain(links)|)
    ensures var q := NameEnd(p, links[0]);
            var r := LinkEnd(p, links[0]);
            && (q == |s| || !IsIdentChar(s[q]))
            && (r == |s| || !IsSpace(s[r]))
  {
    ChainSplit(s, p, links);
    var l := links[0];
    var r := LinkEnd(p, l);
    var tail := FilterChain(links[1..]);
    if |links[1..]| > 0 {
      assert tail[0] == '|';
      assert s[r + 0] == tail[0];
    }
    if |l.after| > 0 {
      assert s[NameEnd(p, l) + 0] == l.after[0];
    }
  }

  /** The chain `links` as the scanner reads it from `p`: each `|` is
      followed by blanks, that name, a character that does not continue the
      name and blanks up to a non-blank; after the last link comes no
      further `|`. */
  ghost predicate ChainAt(s: string, p: nat, links: seq<Link>)
    decreases |links|
  {
    && p <= |s|
    && if |links| == 0 then p == |s| || s[p] != '|'
       else
         var l := links[0];
         var q := NameEnd(p, l);
         var r := LinkEnd(p, l);
         && r <= |s| && s[p] == '|' && LinkOk(l)
         && Matches(s, p + 1, l.before) && Matches(s, NameAt(p, l), l.name) && Matches(s, q, l.after)
         && (q == |s| || !IsIdentChar(s[q]))
         && (r == |s| || !IsSpace(s[r]))
         && ChainAt(s, r, links[1..])
  }

  /** A chain written out as text, ending where `EndsChain` says, is read as
      that chain. */
  lemma {:induction false} ChainWritten(s: string, p: nat, links: seq<Link>)
    requires LinksOk(links)
    requires Matches(s, p, FilterChain(links))
    requires EndsChain(s, p + |FilterChain(links)|)
    ensures ChainAt(s, p, links)
    decreases |links|
  {
    if |links| > 0 {
      ChainSplit(s, p, links);
      LinkEnds(s, p, links);
      ChainWritten(s, LinkEnd(p, links[0]), links[1..]);
    }
  }

  /** What the pipeline over `links` yields when the chain starts at `p`:
      the reference reading, with the cursor after the chain, or an
      UnknownFilter error at the end of the first unregistered name. */
  function ChainResult(e: Engine, links: seq<Link>, p: nat, text: string, ctx: Context): Result<Scanned<string>> {
    if |links| == 0 then Success(Scanned(text, p))
    else
      var l := links[0];
      if l.name !in e.filters then Failure(Error(UnknownFilter, NameEnd(p, l)))
      else ChainResult(e, links[1..], LinkEnd(p, l), e.filters[l.name](text, ctx), ctx)
  }

  /** `ChainResult` agrees with the reference reading: it succeeds exactly
      when every name is registered, with the filtered text, and otherwise
      reports an unknown filter. */
  lemma {:induction false} ChainResultMeans(e: Engine, links: seq<Link>, p: nat, text: string, ctx: Context)
    ensures var r := ChainResult(e, links, p, text, ctx);
            var expected := Apply(e, Names(links), text, ctx);
            && (r.Success? <==> expected.Some?)
            && (r.Success? ==> r.value == Scanned(expected.value, p + |FilterChain(links)|))
            && (r.Failure? ==> r.error.kind == UnknownFilter)
    decreases |links|
  {
    if |links| > 0 {
      var l := links[0];
      assert Names(links)[0] == l.name && Names(links)[1..] == Names(links[1..]);
      assert |FilterChain(links)| == LinkEnd(p, l) - p + |FilterChain(links[1..])|;
      if l.name in e.filters {
        ChainResultMeans(e, links[1..], LinkEnd(p, l), e.filters[l.name](text, ctx), ctx);
      }
    }
  }

  /** The pipeline over a chain read at `p` is `ChainResult`. */
  lemma {:induction false} ChainApplies(e: Engine, s: string, p: nat, ctx: Context, text: string, links: seq<Link>)
    requires ChainAt(s, p, links)
    ensures ApplyFilters(e, s, p, ctx, text) == ChainResult(e, links, p, text, ctx)
    decreases |links|
  {
    if |links| > 0 {
      var l := links[0];
      if l.name in e.filters {
        ChainTail(s, p, links);
        ChainApplies(e, s, LinkEnd(p, l), ctx, e.filters[l.name](text, ctx), links[1..]);
      }
      ChainStep(e, s, p, ctx, text, l);
    }
  }

  /** The rest of a chain read at `p` is read from the end of its first link. */
  lemma ChainTail(s: string, p: nat, links: seq<Link>)
    requires |links| > 0 && ChainAt(s, p, links)
    ensures ChainAt(s, LinkEnd(p, links[0]), links[1..])
  {
  }

  /** One link of a chain: `|`, blanks and a name at `p`, a character that
      does not continue the name, and blanks up to a non-blank. The link
      applies that filter (or fails, if it is unregistered) and goes on
      after the blanks. */
  lemma ChainStep(e: Engine, s: string, p: nat, ctx: Context, text: string, l: Link)
    requires LinkEnd(p, l) <= |s| && s[p] == '|' && LinkOk(l)
    requires Matches(s, p + 1, l.before) && Matches(s, NameAt(p, l), l.name) && Matches(s, NameEnd(p, l), l.after)
    requires var q := NameEnd(p, l); q == |s| || !IsIdentChar(s[q])
    requires var r := LinkEnd(p, l); r == |s| || !IsSpace(s[r])
    ensures var q := NameEnd(p, l);
            && (l.name !in e.filters ==> ApplyFilters(e, s, p, ctx, text) == Failure(Error(UnknownFilter, q)))
            && (l.name in e.filters ==>
                  ApplyFilters(e, s, p, ctx, text) == ApplyFilters(e, s, LinkEnd(p, l), ctx, e.filters[l.name](text, ctx)))
  {
    IdentifierAfterBlanks(s, p + 1, l.before, l.name);
    BlanksSkipped(s, NameEnd(p, l), l.after);
  }

  /** Filters run strictly left to right, whatever blanks surround each
      `|` and name, and the chain fails exactly when it names an
      unregistered filter. */
  lemma FiltersApplyLeftToRight(e: Engine, s: string, p: nat, ctx: Context, text: string, links: seq<Link>)
    requires LinksOk(links)
    requires Matches(s, p, FilterChain(links))
    requires EndsChain(s, p + |FilterChain(links)|)
    ensures var r := ApplyFilters(e, s, p, ctx, text);
            var expected := Apply(e, Names(links), text, ctx);
            && (r.Success? <==> expected.Some?)
            && (r.Success? ==> r.value == Scanned(expected.value, p + |FilterChain(links)|))
            && (r.Failure? ==> r.error.kind == UnknownFilter)
  {
    ChainWritten(s, p, links);
    ChainApplies(e, s, p, ctx, text, links);
    ChainResultMeans(e, links, p, text, ctx);
  }

  /** The first character of a filter chain followed by `}`: `|` when
      there are filters, `}` otherwise. */
  lemma ChainOpens(s: string, q: nat, links: seq<Link>)
    requires Matches(s, q, FilterChain(links))
    requires q + |FilterChain(links)| < |s| && s[q + |FilterChain(links)|] == '}'
    ensures q < |s| && (s[q] == '|' || s[q] == '}')
  {
    if |links| > 0 {
      assert FilterChain(links)[0] == '|';
      assert s[q + 0] == FilterChain(links)[0];
    }
  }

  /** A variable tag whose reference resolved to the text `t` and ended at
      `q`, with blanks up to `c`, from where the filters yield `expected`
      and stop at `}}` (or fail with an unknown filter): it writes
      `expected` and ends after the `}}`, or reports the unknown filter. */
  lemma VariableTagFrom(e: Engine, s: string, p: nat, ctx: Context, path: Path, t: string, q: nat, c: nat, expected: Option<string>, close: nat)
    requires p <= |s| && q <= |s|
    requires ParseNamedEntity(s, p, ctx) == Success(Scanned(Resolved(path, Text(t)), q))
    requires EatWhitespace(s, q) == c
    requires close + 1 < |s| && s[close] == '}' && s[close + 1] == '}'
    requires var f := ApplyFilters(e, s, c, ctx, t);
             && (f.Success? <==> expected.Some?)
             && (f.Success? ==> f.value == Scanned(expected.value, close))
             && (f.Failure? ==> f.error.kind == UnknownFilter)
    ensures var r := HandleVariableTag(e, s, p, ctx);
            && (r.Success? <==> expected.Some?)
            && (r.Success? ==> r.value == Rendered(expected.value, close + 2, ctx))
            && (r.Failure? ==> r.error.kind == UnknownFilter)
  {
    var f := ApplyFilters(e, s, c, ctx, t);
    if f.Success? {
      VariableTagWrites(e, s, p, ctx, path, t, q, c, f.value.value, f.value.pos);
    } else {
      VariableTagFilterFails(e, s, p, ctx, path, t, q, c, f.error);
    }
  }

  /** Blanks `b`, then the filter chain `links`, then `}}`, written at `q`. */
  ghost predicate ClosedChainAt(s: string, q: nat, b: string, links: seq<Link>) {
    var c := q + |b|;
    var close := c + |FilterChain(links)|;
    && LinksOk(links) && Blanks(b)
    && close + 1 < |s|
    && Matches(s, q, b) && Matches(s, c, FilterChain(links))
    && s[close] == '}' && s[close + 1] == '}'
  }

  /** Blanks, a filter chain and `}}` written at `q`: the blanks are
      skipped and the chain yields its reference reading, stopping at the
      `}}`. */
  lemma ChainBeforeClose(e: Engine, s: string, q: nat, c: nat, ctx: Context, t: string, b: string, links: seq<Link>)
    requires c == q + |b|
    requires ClosedChainAt(s, q, b, links)
    ensures var f := ApplyFilters(e, s, c, ctx, t);
            var expected := Apply(e, Names(links), t, ctx);
            && EatWhitespace(s, q) == c
            && (f.Success? <==> expected.Some?)
            && (f.Success? ==> f.value == Scanned(expected.value, c + |FilterChain(links)|))
            && (f.Failure? ==> f.error.kind == UnknownFilter)
  {
    ChainOpens(s, c, links);
    BlanksSkipped(s, q, b);
    FiltersApplyLeftToRight(e, s, c, ctx, t, links);
  }

  /** A variable tag whose reference resolved to the text `t` and ended at
      `q`, with blanks up to `c`, whose filters yield `out` and stop at
      `}}`: it writes `out` and ends after the `}}`. */
  lemma VariableTagWrites(e: Engine, s: string, p: nat, ctx: Context, path: Path, t: string, q: nat, c: nat, out: string, close: nat)
    requires p <= |s| && q <= |s|
    requires ParseNamedEntity(s, p, ctx) == Success(Scanned(Resolved(path, Text(t)), q))
    requires EatWhitespace(s, q) == c
    requires ApplyFilters(e, s, c, ctx, t) == Success(Scanned(out, close))
    requires close + 1 < |s| && s[close] == '}' && s[close + 1] == '}'
    ensures HandleVariableTag(e, s, p, ctx) == Success(Rendered(out, close + 2, ctx))
  {
  }

  /** A variable tag whose filters fail reports their error. */
  lemma VariableTagFilterFails(e: Engine, s: string, p: nat, ctx: Context, path: Path, t: string, q: nat, c: nat, err: Error)
    requires p <= |s| && q <= |s|
    requires ParseNamedEntity(s, p, ctx) == Success(Scanned(Resolved(path, Text(t)), q))
    requires EatWhitespace(s, q) == c
    requires ApplyFilters(e, s, c, ctx, t) == Failure(err)
    ensures HandleVariableTag(e, s, p, ctx) == Failure(err)
  {
  }

  /** A name bound to a text or a sequence, written at `p`, then blanks up
      to a character that neither continues the name nor is blank: the
      reference resolves to the binding and the cursor ends after the
      blanks. */
  lemma NamedAt(s: string, p: nat, ctx: Context, name: string, b: string)
    requires IsIdentifier(name) && (|name| > 0 || b == "") && name in ctx
    requires ctx[name].Text? || ctx[name].Sequence?
    requires Matches(s, p, name) && Matches(s, p + |name|, b) && Blanks(b)
    requires var q := p + |name| + |b|; q < |s| && !IsSpace(s[q]) && !IsIdentChar(s[q])
    ensures ParseNamedEntity(s, p, ctx) == Success(Scanned(Resolved(Var(name), ctx[name]), p + |name| + |b|))
  {
    var n := p + |name|;
    if |b| > 0 {
      assert s[n + 0] == b[0];
    }
    IdentifierIs(s, p, name);
    BlanksSkipped(s, n, b);
  }

  /** The body of `{{name | f1 | ...}}` after the `{{` and its blanks: the
      named text after every filter, then `}}`. */
  lemma VariableTagBody(e: Engine, s: string, p: nat, ctx: Context, name: string, b: string, links: seq<Link>)
    requires IsIdentifier(name) && (|name| > 0 || b == "") && name in ctx && ctx[name].Text?
    requires LinksOk(links) && Blanks(b)
    requires var q := p + |name| + |b|;
             var close := q + |FilterChain(links)|;
             && close + 1 < |s|
             && Matches(s, p, name) && Matches(s, p + |name|, b)
             && Matches(s, q, FilterChain(links))
             && s[close] == '}' && s[close + 1] == '}'
    ensures var expected := Apply(e, Names(links), ctx[name].text, ctx);
            var r := HandleVariableTag(e, s, p, ctx);
            && (r.Success? <==> expected.Some?)
            && (r.Success? ==> r.value == Rendered(expected.value, p + |name| + |b| + |FilterChain(links)| + 2, ctx))
            && (r.Failure? ==> r.error.kind == UnknownFilter)
  {
    var q := p + |name| + |b|;
    var close := q + |FilterChain(links)|;
    var expected := Apply(e, Names(links), ctx[name].text, ctx);
    var f := ApplyFilters(e, s, q, ctx, ctx[name].text);
    ChainOpens(s, q, links);
    assert s[q] == '|' || s[q] == '}';
    ChainBeforeClose(e, s, q, q, ctx, ctx[name].text, "", links);
    assert && EatWhitespace(s, q) == q
           && (f.Success? <==> expected.Some?)
           && (f.Success? ==> f.value == Scanned(expected.value, close))
           && (f.Failure? ==> f.error.kind == UnknownFilter);
    NamedTagFrom(e, s, p, ctx, name, b, Apply(e, Names(links), ctx[name].text, ctx), q + |FilterChain(links)|);
  }

  /** A text-valued name and blanks at `p`, from where the filters yield
      `expected` and stop at `}}`: the tag writes `expected` and ends
      after the `}}`. */
  lemma NamedTagFrom(e: Engine, s: string, p: nat, ctx: Context, name: string, b: string, expected: Option<string>, close: nat)
    requires IsIdentifier(name) && (|name| > 0 || b == "") && name in ctx && ctx[name].Text?
    requires Matches(s, p, name) && Matches(s, p + |name|, b) && Blanks(b)
    requires var q := p + |name| + |b|; q < |s| && !IsSpace(s[q]) && !IsIdentChar(s[q])
    requires close + 1 < |s| && s[close] == '}' && s[close + 1] == '}'
    requires var q := p + |name| + |b|;
             var f := ApplyFilters(e, s, q, ctx, ctx[name].text);
             && EatWhitespace(s, q) == q
             && (f.Success? <==> expected.Some?)
             && (f.Success? ==> f.value == Scanned(expected.value, close))
             && (f.Failure? ==> f.error.kind == UnknownFilter)
    ensures var r := HandleVariableTag(e, s, p, ctx);
            && (r.Success? <==> expected.Some?)
            && (r.Success? ==> r.value == Rendered(expected.value, close + 2, ctx))
            && (r.Failure? ==> r.error.kind == UnknownFilter)
  {
    var q := p + |name| + |b|;
    NamedAt(s, p, ctx, name, b);
    VariableTagFrom(e, s, p, ctx, Var(name), ctx[name].text, q, q, expected, close);
  }

  /** The body of `{{name.field | f1 | ...}}` after the `{{` and its
      blanks, for an object `name` with a text-valued `field`: that text
      after every filter, then `}}`. */
  lemma FieldTagBody(e: Engine, s: string, p: nat, ctx: Context, name: string, field: string, links: seq<Link>)
    requires IsIdentifier(name) && IsIdentifier(field) && LinksOk(links)
    requires name in ctx && ctx[name].Object? && field in ctx[name].fields && ctx[name].fields[field].Text?
    requires var dot := p + |name|;
             var q := dot + 1 + |field|;
             var close := q + |FilterChain(links)|;
             && close + 1 < |s|
             && Matches(s, p, name) && s[dot] == '.' && Matches(s, dot + 1, field)
             && Matches(s, q, FilterChain(links))
             && s[close] == '}' && s[close + 1] == '}'
    ensures var expected := Apply(e, Names(links), ctx[name].fields[field].text, ctx);
            var r := HandleVariableTag(e, s, p, ctx);
            && (r.Success? <==> expected.Some?)
            && (r.Success? ==> r.value == Rendered(expected.value, p + |name| + 1 + |field| + |FilterChain(links)| + 2, ctx))
            && (r.Failure? ==> r.error.kind == UnknownFilter)
  {
    var q := p + |name| + 1 + |field|;
    var close := q + |FilterChain(links)|;
    var expected := Apply(e, Names(links), ctx[name].fields[field].text, ctx);
    var f := ApplyFilters(e, s, q, ctx, ctx[name].fields[field].text);
    ChainOpens(s, q, links);
    assert s[q] == '|' || s[q] == '}';
    assert FieldAccessAt(s, p, name, field);
    ChainBeforeClose(e, s, q, q, ctx, ctx[name].fields[field].text, "", links);
    assert && EatWhitespace(s, q) == q
           && (f.Success? <==> expected.Some?)
           && (f.Success? ==> f.value == Scanned(expected.value, close))
           && (f.Failure? ==> f.error.kind == UnknownFilter);
    FieldTagFrom(e, s, p, ctx, name, field, Apply(e, Names(links), ctx[name].fields[field].text, ctx), q + |FilterChain(links)|);
  }

  /** `name.field` at `p`, for an object `name` with a text-valued
      `field`, from where the filters yield `expected` and stop at `}}`:
      the tag writes `expected` and ends after the `}}`. */
  lemma FieldTagFrom(e: Engine, s: string, p: nat, ctx: Context, name: string, field: string, expected: Option<string>, close: nat)
    requires FieldAccessAt(s, p, name, field)
    requires name in ctx && ctx[name].Object? && field in ctx[name].fields && ctx[name].fields[field].Text?
    requires close + 1 < |s| && s[close] == '}' && s[close + 1] == '}'
    requires var q := p + |name| + 1 + |field|;
             var f := ApplyFilters(e, s, q, ctx, ctx[name].fields[field].text);
             && EatWhitespace(s, q) == q
             && (f.Success? <==> expected.Some?)
             && (f.Success? ==> f.value == Scanned(expected.value, close))
             && (f.Failure? ==> f.error.kind == UnknownFilter)
    ensures var r := HandleVariableTag(e, s, p, ctx);
            && (r.Success? <==> expected.Some?)
            && (r.Success? ==> r.value == Rendered(expected.value, close + 2, ctx))
            && (r.Failure? ==> r.error.kind == UnknownFilter)
  {
    var q := p + |name| + 1 + |field|;
    var v := ctx[name].fields[field];
    assert v == Text(v.text);
    FieldAccessResolves(s, p, ctx, name, field);
    VariableTagFrom(e, s, p, ctx, Field(name, field), v.text, q, q, expected, close);
  }
}
