/** The engine: the render loop, tag dispatch, the built-in control-tag
    handlers and the filter pipeline.

    Termination needs no fuel. Every call in the recursive group starts at a
    cursor no earlier than its caller's, and a `for` body, though re-read once
    per element, always starts strictly after the `for` tag that owns it; so
    the remaining input, refined by a rank per function, decreases. */
module Renderer {
  import opened Results
  import opened Entities
  import opened Scanner
  import opened Parser

  /** A filter rewrites text and may read the context. */
  type Filter = (string, Context) -> string

  /** The built-in control-tag handlers. */
  datatype Handler = If | Unless | Set | For

  /** The handler table: control tag names and what they dispatch to. */
  function HandlerOf(name: string): (h: Option<Handler>)
    ensures h.Some? <==> name in {"if", "unless", "set", "for"}
    ensures h == Some(If) <==> name == "if"
    ensures h == Some(Unless) <==> name == "unless"
    ensures h == Some(Set) <==> name == "set"
    ensures h == Some(For) <==> name == "for"
  {
    if name == "if" then Some(If)
    else if name == "unless" then Some(Unless)
    else if name == "set" then Some(Set)
    else if name == "for" then Some(For)
    else None
  }

  /** An engine is its filter table. */
  datatype Engine = Engine(filters: map<string, Filter>)

  /** Upper-cases the first character (ASCII letters only). */
  function Capitalize(text: string, ctx: Context): (r: string)
    ensures |r| == |text|
    ensures |text| > 0 ==> r[1..] == text[1..]
    ensures |text| > 0 && 'a' <= text[0] <= 'z' ==> 'A' <= r[0] <= 'Z' && r[0] as int + 32 == text[0] as int
    ensures |text| == 0 || !('a' <= text[0] <= 'z') ==> r == text
  {
    if |text| > 0 && 'a' <= text[0] <= 'z' then
      [(text[0] as int - 'a' as int + 'A' as int) as char] + text[1..]
    else text
  }

  /** The engine as constructed, with its one built-in filter. */
  const DefaultEngine := Engine(map["capitalize" := Capitalize])

  /** What rendering a stretch of template produced: the text written, the
      cursor after it, and the context as the stretch left it. */
  datatype Rendered = Rendered(out: string, pos: nat, ctx: Context)

  /** After a control tag, one newline directly following it is dropped. */
  function Chomp(s: string, q: nat): (r: nat)
    requires q <= |s|
    ensures q <= r <= |s|
    ensures r == q + 1 <==> q < |s| && s[q] == '\n'
    ensures r == q || r == q + 1
  {
    if q < |s| && s[q] == '\n' then q + 1 else q
  }

  /** `| name`, with the `|` already consumed: looks the filter up and
      applies it to `text`. */
  function HandleFilter(e: Engine, s: string, p: nat, ctx: Context, text: string): (r: Result<Scanned<string>>)
    requires p <= |s|
    ensures r.Success? ==> p <= r.value.pos <= |s|
    ensures r.Success? <==> GetIdentifier(s, p).value in e.filters
    ensures var name := GetIdentifier(s, p);
            r.Success? ==> r.value == Scanned(e.filters[name.value](text, ctx), name.pos)
    ensures r.Failure? ==> r.error == Error(UnknownFilter, GetIdentifier(s, p).pos)
  {
    var name := GetIdentifier(s, p);
    if name.value !in e.filters then Fail(UnknownFilter, name.pos)
    else Success(Scanned(e.filters[name.value](text, ctx), name.pos))
  }

  /** While the next character is `|`, applies the named filter to the text
      so far; the pipeline stops at the first character that is not `|`. */
  function ApplyFilters(e: Engine, s: string, p: nat, ctx: Context, text: string): (r: Result<Scanned<string>>)
    requires p <= |s|
    ensures r.Success? ==> p <= r.value.pos <= |s|
    ensures r.Success? ==> r.value.pos == |s| || s[r.value.pos] != '|'
    ensures r.Failure? ==> r.error.kind == UnknownFilter
    decreases |s| - p
  {
    if p < |s| && s[p] == '|' then
      var f :- HandleFilter(e, s, p + 1, ctx, text);
      ApplyFilters(e, s, EatWhitespace(s, f.pos), ctx, f.value)
    else
      Success(Scanned(text, p))
  }

  /** `{{ name[.field] (| filter)* }}`, after the `{{` and its blanks: the
      entity must be text; the filtered text is written and `}}` must follow.
      A variable tag never changes the context. */
  function HandleVariableTag(e: Engine, s: string, p: nat, ctx: Context): (r: Result<Rendered>)
    requires p <= |s|
    ensures r.Success? ==> p + 2 <= r.value.pos <= |s|
    ensures r.Success? ==> s[r.value.pos - 2] == '}' && s[r.value.pos - 1] == '}'
    ensures r.Success? ==> r.value.ctx == ctx
  {
    var named :- ParseNamedEntity(s, p, ctx);
    var ent := named.value.entity;
    if !ent.Text? then Fail(TypeError, named.pos)
    else
      var f :- ApplyFilters(e, s, EatWhitespace(s, named.pos), ctx, ent.text);
      var q := f.pos;
      if q + 1 < |s| && s[q] == '}' && s[q + 1] == '}' then
        Success(Rendered(f.value, q + 2, ctx))
      else
        Fail(SyntaxError, q)
  }

  /** Every binding of `before` other than `name` is the same in `after`. */
  predicate OnlyChanged(after: Context, before: Context, name: string) {
    forall n :: n in before && n != name ==> n in after && after[n] == before[n]
  }

  /** The `switch` of the `set` handler: a sequence target is left alone
      (assignment to sequences is not implemented); any other target takes
      the source value when the variants agree, and is a TypeError otherwise. */
  function Assign(ctx: Context, path: Path, source: Entity, at: nat): (r: Result<Context>)
    requires Lookup(ctx, path).Some?
    ensures var target := Lookup(ctx, path).value;
            r.Success? <==> target.Sequence? || SameVariant(target, source)
    ensures r.Success? && !Lookup(ctx, path).value.Sequence? ==> Lookup(r.value, path) == Some(source)
    ensures r.Success? && Lookup(ctx, path).value.Sequence? ==> r.value == ctx
    ensures r.Success? ==> Conforms(r.value, ctx)
    ensures r.Success? ==> OnlyChanged(r.value, ctx, path.name)
    ensures r.Failure? ==> r.error.kind == TypeError
  {
    var target := Lookup(ctx, path).value;
    if target.Sequence? then Success(ctx)
    else if SameVariant(target, source) then Success(Store(ctx, path, source))
    else Fail(TypeError, at)
  }

  /** Blanks, then the `%}` that closes a control tag; nothing is written. */
  function CloseControlTag(s: string, p: nat, ctx: Context): (r: Result<Rendered>)
    requires p <= |s|
    ensures r.Success? ==> p + 2 <= r.value.pos <= |s| && r.value.out == [] && r.value.ctx == ctx
    ensures r.Success? ==> s[r.value.pos - 2] == '%' && s[r.value.pos - 1] == '}'
    ensures var k := EatWhitespace(s, p);
            r.Success? <==> k + 1 < |s| && s[k] == '%' && s[k + 1] == '}'
    ensures r.Success? ==> r.value.pos == EatWhitespace(s, p) + 2
    ensures r.Failure? ==> r.error == Error(SyntaxError, EatWhitespace(s, p))
  {
    var q := EatWhitespace(s, p);
    if q + 1 < |s| && s[q] == '%' && s[q + 1] == '}' then
      Success(Rendered([], q + 2, ctx))
    else
      Fail(SyntaxError, q)
  }

  /** `{% set target source %}`, after the tag name: the target must already
      be bound; it keeps its variant and only it may change. */
  function HandleSet(s: string, p: nat, ctx: Context): (r: Result<Rendered>)
    requires p <= |s|
    ensures r.Success? ==> p + 2 <= r.value.pos <= |s|
    ensures r.Success? ==> s[r.value.pos - 2] == '%' && s[r.value.pos - 1] == '}'
    ensures r.Success? ==> r.value.out == [] && Conforms(r.value.ctx, ctx)
    ensures r.Success? ==> OnlyChanged(r.value.ctx, ctx, GetIdentifier(s, p).value)
  {
    var target :- ParseNamedEntity(s, p, ctx);
    var source :- ParseEntity(s, target.pos, ctx);
    var updated :- Assign(ctx, target.value.path, source.value, source.pos);
    CloseControlTag(s, source.pos, updated)
  }

  /** `{% if operand`: the operand is parsed and nothing else is done; the
      rest of the tag stays in the input. */
  function HandleIf(s: string, p: nat, ctx: Context): (r: Result<Rendered>)
    requires p <= |s|
    ensures r.Success? ==> p <= r.value.pos <= |s| && r.value.out == [] && r.value.ctx == ctx
    ensures r.Success? <==> ParseEntity(s, p, ctx).Success?
    ensures r.Success? ==> r.value.pos == ParseEntity(s, p, ctx).value.pos
  {
    var operand :- ParseEntity(s, p, ctx);
    Success(Rendered([], operand.pos, ctx))
  }

  /** A control tag after `{%` and its blanks: the tag name is a
      blank-delimited token, dispatched through the handler table. */
  function HandleExpressionTag(e: Engine, s: string, p: nat, ctx: Context): (r: Result<Rendered>)
    requires p <= |s|
    ensures r.Success? ==> p <= r.value.pos <= |s| && Conforms(r.value.ctx, ctx)
    ensures HandlerOf(ReadToken(s, p).value).None? ==> r.Failure? && r.error.kind == UnknownHandler
    decreases |s| - p, 3
  {
    var name := ReadToken(s, p);
    match HandlerOf(name.value)
    case None => Fail(UnknownHandler, name.pos)
    case Some(If) => HandleIf(s, name.pos, ctx)
    case Some(Unless) => Success(Rendered([], name.pos, ctx))
    case Some(Set) => HandleSet(s, name.pos, ctx)
    case Some(For) => HandleFor(e, s, name.pos, ctx)
  }

  /** The head of a `for` tag: the loop variable, the elements to visit and
      where the body starts. */
  datatype Loop = Loop(name: string, items: seq<Entity>, start: nat)

  /** `x in operand %}`, after the tag name. The operand must be a sequence,
      and the body starts right after the `%}`. */
  function ParseForHeader(s: string, p: nat, ctx: Context): (r: Result<Loop>)
    requires p <= |s|
    ensures r.Success? ==> p + 2 <= r.value.start <= |s|
    ensures r.Success? ==> s[r.value.start - 2] == '%' && s[r.value.start - 1] == '}'
    ensures r.Success? ==> r.value.name == GetIdentifier(s, p).value
  {
    var loopVar := GetIdentifier(s, p);
    var afterIn :- ExpectText(s, loopVar.pos, "in");
    var operand :- ParseEntity(s, afterIn, ctx);
    var q := operand.pos;
    if !(q + 1 < |s| && s[q] == '%' && s[q + 1] == '}') then
      Fail(SyntaxError, q)
    else if !operand.value.Sequence? then
      Fail(TypeError, q + 2)
    else
      Success(Loop(loopVar.value, operand.value.items, q + 2))
  }

  /** One pass of a loop body: from the body start, in a copy of the
      enclosing context with the loop variable bound to the element, up to
      the `endfor` lookahead. */
  function BodyPass(e: Engine, s: string, loop: Loop, ctx: Context): (pass: Entity -> Result<Rendered>)
    requires loop.start <= |s|
    ensures forall x :: pass(x).Success? ==> loop.start <= pass(x).value.pos <= |s|
    decreases |s| - loop.start + 1, 0
  {
    x => ProcessUntilTag(e, s, loop.start, ctx[loop.name := x], "endfor")
  }

  /** The loop proper: every pass, then one control tag consumed where the
      last pass stopped (at the body start when there are no elements). The
      enclosing context is never changed. */
  function RunLoop(e: Engine, s: string, loop: Loop, ctx: Context): (r: Result<Rendered>)
    requires loop.start <= |s|
    ensures r.Success? ==> loop.start < r.value.pos <= |s|
    ensures r.Success? ==> r.value.ctx == ctx
    decreases |s| - loop.start + 1, 1
  {
    var body :- RunPasses(BodyPass(e, s, loop, ctx), loop.items, loop.start, loop.start, |s|);
    var end :- EatTag(s, body.pos);
    Success(Rendered(body.value, end, ctx))
  }

  /** `{% for x in operand %} body {% endfor %}`, after the tag name. */
  function HandleFor(e: Engine, s: string, p: nat, ctx: Context): (r: Result<Rendered>)
    requires p <= |s|
    ensures r.Success? ==> p < r.value.pos <= |s|
    ensures r.Success? ==> r.value.ctx == ctx
    decreases |s| - p, 2
  {
    var loop :- ParseForHeader(s, p, ctx);
    RunLoop(e, s, loop, ctx)
  }

  /** The passes of a `for` loop: `pass` renders the body for one element;
      outputs are joined in order and the cursor is where the last pass
      stopped (`pos` when there are none). Every pass stops within `lo..hi`. */
  function RunPasses(pass: Entity -> Result<Rendered>, items: seq<Entity>, pos: nat, lo: nat, hi: nat)
    : (r: Result<Scanned<string>>)
    requires lo <= pos <= hi
    requires forall x :: pass(x).Success? ==> lo <= pass(x).value.pos <= hi
    ensures r.Success? ==> lo <= r.value.pos <= hi
  {
    if |items| == 0 then Success(Scanned([], pos))
    else
      var first :- pass(items[0]);
      var rest :- RunPasses(pass, items[1..], first.pos, lo, hi);
      Success(Scanned(first.out + rest.value, rest.pos))
  }

  /** Renders literal text and tags until the lookahead sees a control tag
      named `tag`, which is left unconsumed; running out of input first is an
      error. */
  function ProcessUntilTag(e: Engine, s: string, p: nat, ctx: Context, tag: string): (r: Result<Rendered>)
    requires p <= |s|
    ensures r.Success? ==> p <= r.value.pos <= |s| && IsNextTag(s, r.value.pos, tag)
    ensures r.Success? ==> Conforms(r.value.ctx, ctx)
    decreases |s| - p, 5
  {
    var lit := StreamUpToTag(s, p);
    if IsNextTag(s, lit.pos, tag) then
      Success(Rendered(lit.value, lit.pos, ctx))
    else
      var t :- ProcessTag(e, s, lit.pos, ctx);
      var rest :- ProcessUntilTag(e, s, t.pos, t.ctx, tag);
      ConformsTransitive(rest.ctx, t.ctx, ctx);
      Success(Rendered(lit.value + t.out + rest.out, rest.pos, rest.ctx))
  }

  /** One tag at `p`: `{` must be there; `{{` is a variable tag; `{%` is a
      control tag, after which one newline is dropped. */
  function ProcessTag(e: Engine, s: string, p: nat, ctx: Context): (r: Result<Rendered>)
    requires p <= |s|
    ensures r.Success? ==> p < r.value.pos <= |s| && Conforms(r.value.ctx, ctx)
    ensures p == |s| || s[p] != '{' ==> r.Failure? && r.error.kind == SyntaxError
    decreases |s| - p, 4
  {
    if p == |s| || s[p] != '{' then Fail(SyntaxError, p)
    else if p + 1 == |s| then Success(Rendered([], p + 1, ctx))
    else if s[p + 1] == '{' then HandleVariableTag(e, s, EatWhitespace(s, p + 2), ctx)
    else if s[p + 1] == '%' then
      var t :- HandleExpressionTag(e, s, EatWhitespace(s, p + 2), ctx);
      Success(Rendered(t.out, Chomp(s, t.pos), t.ctx))
    else
      Success(Rendered([], p + 2, ctx))
  }

  /** The render loop from `p`: copy literal text, process the tag it stops
      at, repeat until the input is exhausted. */
  function RenderFrom(e: Engine, s: string, p: nat, ctx: Context): (r: Result<Rendered>)
    requires p <= |s|
    ensures r.Success? ==> r.value.pos == |s| && Conforms(r.value.ctx, ctx)
    decreases |s| - p
  {
    var lit := StreamUpToTag(s, p);
    if lit.pos == |s| then
      Success(Rendered(lit.value, |s|, ctx))
    else
      var t :- ProcessTag(e, s, lit.pos, ctx);
      var rest :- RenderFrom(e, s, t.pos, t.ctx);
      ConformsTransitive(rest.ctx, t.ctx, ctx);
      Success(Rendered(lit.value + t.out + rest.out, rest.pos, rest.ctx))
  }

  /** Renders a whole template against a context. On success the whole input
      was read, and the context (which `set` may update) still binds the same
      names to entities of the same variants. */
  function Render(e: Engine, s: string, ctx: Context): (r: Result<Rendered>)
    ensures r.Success? ==> r.value.pos == |s| && Conforms(r.value.ctx, ctx)
  {
    RenderFrom(e, s, 0, ctx)
  }
}
