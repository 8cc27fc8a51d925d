/** The `for` loop: its passes over the elements, as a fold, related to a
    reference reading (every pass, outputs joined in order, the first
    failing pass ending the loop). */
module Loops {
  import opened Results
  import opened Entities
  import opened Scanner
  import opened Parser
  import opened Renderer

  /** Prepends `out` to a successful result; a failure passes through. */
  function After(out: string, r: Result<Scanned<string>>): Result<Scanned<string>> {
    match r
    case Success(v) => Success(Scanned(out + v.value, v.pos))
    case Failure(err) => Failure(err)
  }

  /** The passes over `a + b` are the passes over `a` followed by the passes
      over `b`, started where the last pass over `a` stopped; a failure
      among the passes over `a` ends the loop before `b` is reached. */
  lemma {:induction false} RunPassesAppend(pass: Entity -> Result<Rendered>, a: seq<Entity>, b: seq<Entity>,
                                           pos: nat, lo: nat, hi: nat)
    requires lo <= pos <= hi
    requires forall x :: pass(x).Success? ==> lo <= pass(x).value.pos <= hi
    ensures var ra := RunPasses(pass, a, pos, lo, hi);
            RunPasses(pass, a + b, pos, lo, hi)
              == if ra.Failure? then ra else After(ra.value.value, RunPasses(pass, b, ra.value.pos, lo, hi))
    decreases |a|
  {
    if |a| == 0 {
      assert a + b == b;
      var rb := RunPasses(pass, b, pos, lo, hi);
      if rb.Success? {
        assert [] + rb.value.value == rb.value.value;
      }
    } else {
      assert (a + b)[0] == a[0];
      assert (a + b)[1..] == a[1..] + b;
      var first := pass(a[0]);
      if first.Success? {
        RunPassesAppend(pass, a[1..], b, first.value.pos, lo, hi);
        var ra' := RunPasses(pass, a[1..], first.value.pos, lo, hi);
        if ra'.Success? {
          var rb := RunPasses(pass, b, ra'.value.pos, lo, hi);
          if rb.Success? {
            assert first.value.out + (ra'.value.value + rb.value.value)
                == (first.value.out + ra'.value.value) + rb.value.value;
          }
        }
      }
    }
  }

  /** The index of the first element whose pass fails; `|items|` if none does. */
  function FirstFailing(pass: Entity -> Result<Rendered>, items: seq<Entity>): (k: nat)
    ensures k <= |items|
    ensures forall i :: 0 <= i < k ==> pass(items[i]).Success?
    ensures k < |items| ==> pass(items[k]).Failure?
  {
    if |items| == 0 || pass(items[0]).Failure? then 0
    else 1 + FirstFailing(pass, items[1..])
  }

  /** The outputs of the passes over `items`, in order. */
  ghost function Joined(pass: Entity -> Result<Rendered>, items: seq<Entity>): string
    requires forall i :: 0 <= i < |items| ==> pass(items[i]).Success?
  {
    if |items| == 0 then [] else pass(items[0]).value.out + Joined(pass, items[1..])
  }

  /** The reference reading of the fold: it succeeds exactly when every pass
      does, and then writes the passes' outputs in element order and stops
      where the last pass stopped; otherwise it fails with the error of the
      first failing pass. */
  lemma {:induction false} RunPassesSpec(pass: Entity -> Result<Rendered>, items: seq<Entity>,
                                         pos: nat, lo: nat, hi: nat)
    requires lo <= pos <= hi
    requires forall x :: pass(x).Success? ==> lo <= pass(x).value.pos <= hi
    ensures var r := RunPasses(pass, items, pos, lo, hi);
            var k := FirstFailing(pass, items);
            && (r.Success? <==> k == |items|)
            && (k < |items| ==> r == Failure(pass(items[k]).error))
            && (k == |items| ==>
                  r == Success(Scanned(Joined(pass, items),
                                       if |items| == 0 then pos else pass(items[|items| - 1]).value.pos)))
    decreases |items|
  {
    if |items| > 0 {
      var first := pass(items[0]);
      if first.Success? {
        RunPassesSpec(pass, items[1..], first.value.pos, lo, hi);
        if |items| > 1 {
          assert items[1..][|items| - 2] == items[|items| - 1];
        }
      }
    }
  }

  /** `{% for x in operand %}` with a successfully parsed head: each pass
      renders the body from its start in the enclosing context with `x`
      bound to the element; the loop writes every pass's output in element
      order and then consumes one control tag where the last pass stopped
      (the body start itself when there are no elements, so an empty loop
      consumes the first tag of its body, not `endfor`). A failing pass ends
      the loop with its error. The enclosing context comes back unchanged. */
  lemma ForLoopSpec(e: Engine, s: string, loop: Loop, ctx: Context)
    requires loop.start <= |s|
    ensures var pass := BodyPass(e, s, loop, ctx);
            forall x :: pass(x) == ProcessUntilTag(e, s, loop.start, ctx[loop.name := x], "endfor")
    ensures var pass := BodyPass(e, s, loop, ctx);
            var k := FirstFailing(pass, loop.items);
            var r := RunLoop(e, s, loop, ctx);
            && (k < |loop.items| ==> r == Failure(pass(loop.items[k]).error))
            && (k == |loop.items| ==>
                  var last := if |loop.items| == 0 then loop.start
                              else pass(loop.items[|loop.items| - 1]).value.pos;
                  && (EatTag(s, last).Failure? ==> r == Failure(EatTag(s, last).error))
                  && (EatTag(s, last).Success? ==>
                        r == Success(Rendered(Joined(pass, loop.items), EatTag(s, last).value, ctx))))
  {
    RunPassesSpec(BodyPass(e, s, loop, ctx), loop.items, loop.start, loop.start, |s|);
  }

  /** The header of `{% for x in name %}` as written after the tag name:
      blanks `b1` before the loop variable, `b2` before `in`, `b3` before
      the operand and `b4` before `%}`. */
  function ForHeader(b1: string, x: string, b2: string, b3: string, name: string, b4: string): string {
    b1 + x + b2 + "in" + b3 + name + b4 + "%}"
  }

  /** The blanks of a header: `in` must stand apart from the words on
      either side of it. */
  predicate HeaderBlanks(b1: string, b2: string, b3: string, b4: string) {
    Blanks(b1) && Blanks(b2) && Blanks(b3) && Blanks(b4) && |b2| > 0 && |b3| > 0
  }

  /** Where the pieces of a written header sit in the input: the loop
      variable ends at `a`, `in` ends at `b`, the operand starts at `n`
      and `%}` sits at `q`. */
  lemma ForHeaderChars(s: string, p: nat, b1: string, x: string, b2: string, b3: string, name: string, b4: string)
    requires Matches(s, p, ForHeader(b1, x, b2, b3, name, b4))
    ensures var a := p + |b1| + |x|;
            var b := a + |b2| + 2;
            var n := b + |b3|;
            var q := n + |name| + |b4|;
            && q + 2 == p + |ForHeader(b1, x, b2, b3, name, b4)| <= |s|
            && Matches(s, p, b1) && Matches(s, p + |b1|, x) && Matches(s, a, b2)
            && s[a + |b2|] == 'i' && s[a + |b2| + 1] == 'n'
            && Matches(s, b, b3) && Matches(s, n, name) && Matches(s, n + |name|, b4)
            && s[q] == '%' && s[q + 1] == '}'
  {
    var a := p + |b1| + |x|;
    var n := a + |b2| + 2 + |b3|;
    var q := n + |name| + |b4|;
    MatchesConcat(s, p, b1 + x + b2 + "in" + b3 + name + b4, "%}");
    MatchesConcat(s, p, b1 + x + b2 + "in" + b3 + name, b4);
    MatchesConcat(s, p, b1 + x + b2 + "in" + b3, name);
    MatchesConcat(s, p, b1 + x + b2 + "in", b3);
    MatchesConcat(s, p, b1 + x + b2, "in");
    MatchesConcat(s, p, b1 + x, b2);
    MatchesConcat(s, p, b1, x);
    assert s[a + |b2| + 0] == "in"[0] && s[a + |b2| + 1] == "in"[1];
    assert s[q + 0] == "%}"[0] && s[q + 1] == "%}"[1];
  }

  /** The loop variable and the `in` of a written header are read as such. */
  lemma ForHeaderWords(s: string, p: nat, b1: string, x: string, b2: string, b3: string, name: string, b4: string)
    requires Matches(s, p, ForHeader(b1, x, b2, b3, name, b4)) && HeaderBlanks(b1, b2, b3, b4)
    requires IsIdentifier(x) && |x| > 0
    ensures var a := p + |b1| + |x|;
            && GetIdentifier(s, p) == Scanned(x, a)
            && ExpectText(s, a, "in") == Success(a + |b2| + 2)
  {
    ForHeaderChars(s, p, b1, x, b2, b3, name, b4);
    var a := p + |b1| + |x|;
    var b := a + |b2| + 2;
    assert s[a + 0] == b2[0] && IsSpace(b2[0]);
    IdentifierAfterBlanks(s, p, b1, x);
    assert s[b + 0] == b3[0] && IsSpace(b3[0]);
    assert Matches(s, a + |b2|, "in");
    TokenAfterBlanks(s, a, b2, "in");
  }

  /** The operand of a written header is the variable `name`, resolved in
      the context: its binding, or the error the parser reports for it. */
  lemma ForHeaderOperand(s: string, p: nat, ctx: Context, b1: string, x: string, b2: string, b3: string, name: string, b4: string)
    requires Matches(s, p, ForHeader(b1, x, b2, b3, name, b4)) && HeaderBlanks(b1, b2, b3, b4)
    requires IsIdentifier(name) && |name| > 0
    ensures var b := p + |b1| + |x| + |b2| + 2;
            var t := b + |b3| + |name|;
            var q := t + |b4|;
            var r := ParseEntity(s, b, ctx);
            && (name !in ctx ==> r == Failure(Error(NameError, t)))
            && (name in ctx && (ctx[name].Text? || ctx[name].Sequence?) ==> r == Success(Scanned(ctx[name], q)))
            && (name in ctx && !(ctx[name].Text? || ctx[name].Sequence?) ==> r == Failure(Error(TypeError, q)))
  {
    ForHeaderChars(s, p, b1, x, b2, b3, name, b4);
    var b := p + |b1| + |x| + |b2| + 2;
    var n := b + |b3|;
    var t := n + |name|;
    assert s[n + 0] == name[0] && IsIdentChar(name[0]);
    BlanksSkipped(s, b, b3);
    if |b4| > 0 {
      assert s[t + 0] == b4[0] && IsSpace(b4[0]);
    }
    IdentifierIs(s, n, name);
    BlanksSkipped(s, t, b4);
    OperandNamed(s, b, ctx, name, n, t, t + |b4|);
  }

  /** Blanks from `b` up to a name that runs to `t`, then blanks up to a
      character at `q` other than `.`: the operand is that name's binding,
      or the parser's error for it. */
  lemma OperandNamed(s: string, b: nat, ctx: Context, name: string, n: nat, t: nat, q: nat)
    requires b <= n < t <= q < |s| && IsIdentChar(s[n]) && s[q] != '.'
    requires EatWhitespace(s, b) == n && GetIdentifier(s, n) == Scanned(name, t) && EatWhitespace(s, t) == q
    ensures var r := ParseEntity(s, b, ctx);
            && (name !in ctx ==> r == Failure(Error(NameError, t)))
            && (name in ctx && (ctx[name].Text? || ctx[name].Sequence?) ==> r == Success(Scanned(ctx[name], q)))
            && (name in ctx && !(ctx[name].Text? || ctx[name].Sequence?) ==> r == Failure(Error(TypeError, q)))
  {
    NamedEntitySpec(s, n, ctx);
    ParseEntityDispatch(s, b, ctx);
  }

  /** `{% for x in name %}`: with `name` bound to a sequence the loop runs
      over its elements with `x` as the loop variable, and its body starts
      right after the `%}`; a text operand is a type error after the `%}`,
      a number or an object one at the `%`, and an unbound name a name
      error where the name ends. */
  lemma ForHeaderReads(s: string, p: nat, ctx: Context, b1: string, x: string, b2: string, b3: string, name: string, b4: string)
    requires Matches(s, p, ForHeader(b1, x, b2, b3, name, b4)) && HeaderBlanks(b1, b2, b3, b4)
    requires IsIdentifier(x) && |x| > 0 && IsIdentifier(name) && |name| > 0
    ensures var end := p + |ForHeader(b1, x, b2, b3, name, b4)|;
            var r := ParseForHeader(s, p, ctx);
            && (name in ctx && ctx[name].Sequence? ==> r == Success(Loop(x, ctx[name].items, end)))
            && (name in ctx && ctx[name].Text? ==> r == Failure(Error(TypeError, end)))
            && (name in ctx && !ctx[name].Sequence? && !ctx[name].Text? ==> r == Failure(Error(TypeError, end - 2)))
            && (name !in ctx ==> r == Failure(Error(NameError, end - 2 - |b4|)))
  {
    ForHeaderChars(s, p, b1, x, b2, b3, name, b4);
    ForHeaderWords(s, p, b1, x, b2, b3, name, b4);
    ForHeaderOperand(s, p, ctx, b1, x, b2, b3, name, b4);
    var a := p + |b1| + |x|;
    var b := a + |b2| + 2;
    var t := b + |b3| + |name|;
    ForHeaderFrom(s, p, ctx, x, a, b, name, t, t + |b4|);
  }

  /** `ForHeaderReads`, from the reads of the loop variable, the `in` and
      the operand. */
  lemma ForHeaderFrom(s: string, p: nat, ctx: Context, x: string, a: nat, b: nat, name: string, t: nat, q: nat)
    requires p <= a <= b <= t <= q && q + 1 < |s| && s[q] == '%' && s[q + 1] == '}'
    requires GetIdentifier(s, p) == Scanned(x, a)
    requires ExpectText(s, a, "in") == Success(b)
    requires var r := ParseEntity(s, b, ctx);
             && (name !in ctx ==> r == Failure(Error(NameError, t)))
             && (name in ctx && (ctx[name].Text? || ctx[name].Sequence?) ==> r == Success(Scanned(ctx[name], q)))
             && (name in ctx && !(ctx[name].Text? || ctx[name].Sequence?) ==> r == Failure(Error(TypeError, q)))
    ensures var r := ParseForHeader(s, p, ctx);
            && (name in ctx && ctx[name].Sequence? ==> r == Success(Loop(x, ctx[name].items, q + 2)))
            && (name in ctx && ctx[name].Text? ==> r == Failure(Error(TypeError, q + 2)))
            && (name in ctx && !ctx[name].Sequence? && !ctx[name].Text? ==> r == Failure(Error(TypeError, q)))
            && (name !in ctx ==> r == Failure(Error(NameError, t)))
  {
    if name !in ctx {
      ForHeaderBadOperand(s, p, ctx, x, a, b, Error(NameError, t));
    } else if ctx[name].Sequence? {
      ForHeaderLoop(s, p, ctx, x, a, b, ctx[name].items, q);
    } else if ctx[name].Text? {
      ForHeaderNotLoop(s, p, ctx, x, a, b, ctx[name], q);
    } else {
      ForHeaderBadOperand(s, p, ctx, x, a, b, Error(TypeError, q));
    }
  }

  /** Past the `in`, a sequence operand closed by `%}` makes the loop. */
  lemma ForHeaderLoop(s: string, p: nat, ctx: Context, x: string, a: nat, b: nat, items: seq<Entity>, q: nat)
    requires p <= a <= b <= q && q + 1 < |s| && s[q] == '%' && s[q + 1] == '}'
    requires GetIdentifier(s, p) == Scanned(x, a)
    requires ExpectText(s, a, "in") == Success(b)
    requires ParseEntity(s, b, ctx) == Success(Scanned(Sequence(items), q))
    ensures ParseForHeader(s, p, ctx) == Success(Loop(x, items, q + 2))
  {
  }

  /** Past the `in`, an operand of another variant closed by `%}` is a type
      error after the `%}`. */
  lemma ForHeaderNotLoop(s: string, p: nat, ctx: Context, x: string, a: nat, b: nat, v: Entity, q: nat)
    requires p <= a <= b <= q && q + 1 < |s| && s[q] == '%' && s[q + 1] == '}' && !v.Sequence?
    requires GetIdentifier(s, p) == Scanned(x, a)
    requires ExpectText(s, a, "in") == Success(b)
    requires ParseEntity(s, b, ctx) == Success(Scanned(v, q))
    ensures ParseForHeader(s, p, ctx) == Failure(Error(TypeError, q + 2))
  {
  }

  /** Past the `in`, an operand that fails ends the header with its error. */
  lemma ForHeaderBadOperand(s: string, p: nat, ctx: Context, x: string, a: nat, b: nat, err: Error)
    requires p <= a <= b <= |s|
    requires GetIdentifier(s, p) == Scanned(x, a)
    requires ExpectText(s, a, "in") == Success(b)
    requires ParseEntity(s, b, ctx) == Failure(err)
    ensures ParseForHeader(s, p, ctx) == Failure(err)
  {
  }
}
