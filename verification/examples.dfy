/** Worked templates: whole renders of small inputs, each fixing one
    behaviour of the engine on concrete text. */
module Examples {
  import opened Results
  import opened Entities
  import opened Scanner
  import opened Renderer
  import opened Pipeline
  import opened Properties
  import opened Loops

  const Hello := "Hello {{what}}!"
  const World: Context := map["what" := Text("world")]

  lemma HelloTag()
    ensures ProcessTag(DefaultEngine, Hello, 6, World) == Success(Rendered("world", 14, World))
  {
    assert Matches(Hello, 8, "what");
    VariableTagAlone(DefaultEngine, Hello, 6, World, "what");
  }

  /** A variable tag is replaced by the variable's text. */
  lemma HelloWorld()
    ensures Render(DefaultEngine, Hello, World) == Success(Rendered("Hello world!", 15, World))
  {
    HelloTag();
    HelloLayout(Hello);
    RenderOneTag(DefaultEngine, Hello, 6, World);
  }

  /** Where the one tag of `Hello` sits, and the text around it. */
  lemma HelloLayout(s: string)
    requires s == Hello
    ensures |s| == 15 && IsTagAt(s, 6)
    ensures forall i :: 0 <= i < 6 ==> !IsTagAt(s, i)
    ensures forall i :: 14 <= i < |s| ==> !IsTagAt(s, i)
    ensures s[..6] + "world" + s[14..] == "Hello world!"
  {
    assert s[..6] == "Hello " && s[14..] == "!";
  }

  /** A custom filter that ignores its input. */
  function ChangeToCheese(text: string, ctx: Context): string {
    "cheese"
  }

  /** The engine with `change_to_cheese` registered beside the built-ins. */
  const CheeseEngine := Engine(DefaultEngine.filters["change_to_cheese" := ChangeToCheese])
  const Cheese := "Hello {{what|change_to_cheese}}"

  /** `w` is written between `a` and `b`. */
  lemma MatchesBetween(a: string, w: string, b: string)
    ensures Matches(a + w + b, |a|, w)
  {
    forall i | 0 <= i < |w|
      ensures (a + w + b)[|a| + i] == w[i]
    {
    }
  }

  /** The filter chain of `Cheese`: one link, with no blanks. */
  const CheeseLinks := [Link("", "change_to_cheese", "")]

  lemma CheeseChain()
    ensures FilterChain(CheeseLinks) == "|change_to_cheese"
    ensures Names(CheeseLinks) == ["change_to_cheese"]
    ensures LinksOk(CheeseLinks)
  {
    assert CheeseLinks[1..] == [];
    assert IsIdentifier("change_to_cheese");
  }

  /** How `{{what|change_to_cheese}}` sits in the template. */
  lemma CheeseWritten(s: string)
    requires s == Cheese
    ensures |s| == 31 && IsIdentifier("what")
    ensures Matches(s, 6, VariableTag("", "what", "", CheeseLinks))
    ensures |VariableTag("", "what", "", CheeseLinks)| == 25
  {
    CheeseChain();
    CheeseTagText();
    CheeseTagPlaced(s);
  }

  lemma CheeseTagText()
    ensures VariableTag("", "what", "", CheeseLinks) == "{{what|change_to_cheese}}"
  {
    CheeseChain();
  }

  lemma CheeseTagPlaced(s: string)
    requires s == Cheese
    ensures Matches(s, 6, "{{what|change_to_cheese}}")
  {
    assert s == "Hello " + "{{what|change_to_cheese}}" + "";
    MatchesBetween("Hello ", "{{what|change_to_cheese}}", "");
  }

  lemma CheeseApplies()
    ensures Apply(CheeseEngine, ["change_to_cheese"], "world", World) == Some("cheese")
  {
    var names := ["change_to_cheese"];
    assert names[1..] == [];
  }

  lemma CheeseTag(s: string)
    requires s == Cheese
    ensures ProcessTag(CheeseEngine, s, 6, World) == Success(Rendered("cheese", 31, World))
  {
    CheeseWritten(s);
    CheeseChain();
    CheeseApplies();
    VariableTagWritesFilteredText(CheeseEngine, s, 6, World, "", "what", "", CheeseLinks);
  }

  /** A registered custom filter is applied to the variable's text. */
  lemma HelloCheese()
    ensures Render(CheeseEngine, Cheese, World) == Success(Rendered("Hello cheese", 31, World))
  {
    CheeseTag(Cheese);
    CheeseLayout(Cheese);
    RenderOneTag(CheeseEngine, Cheese, 6, World);
  }

  /** Where the one tag of `Cheese` sits, and the text around it. */
  lemma CheeseLayout(s: string)
    requires s == Cheese
    ensures |s| == 31 && IsTagAt(s, 6)
    ensures forall i :: 0 <= i < 6 ==> !IsTagAt(s, i)
    ensures s[..6] + "cheese" + s[31..] == "Hello cheese"
  {
    assert s[..6] == "Hello " && s[31..] == "";
  }

  const Shout := "Hello {{ what | capitalize }}!"

  /** The filter chain of `Shout`: one link, blank on both sides. */
  const ShoutLinks := [Link(" ", "capitalize", " ")]

  lemma ShoutChain()
    ensures FilterChain(ShoutLinks) == "| capitalize "
    ensures Names(ShoutLinks) == ["capitalize"]
    ensures LinksOk(ShoutLinks)
  {
    assert ShoutLinks[1..] == [];
    assert IsIdentifier("capitalize");
    assert Blanks(" ");
  }

  /** How `{{ what | capitalize }}` sits in the template. */
  lemma ShoutWritten(s: string)
    requires s == Shout
    ensures |s| == 30 && IsIdentifier("what") && Blanks(" ")
    ensures Matches(s, 6, VariableTag(" ", "what", " ", ShoutLinks))
    ensures |VariableTag(" ", "what", " ", ShoutLinks)| == 23
  {
    ShoutChain();
    ShoutTagText();
    ShoutTagPlaced(s);
  }

  lemma ShoutTagText()
    ensures VariableTag(" ", "what", " ", ShoutLinks) == "{{ what | capitalize }}"
  {
    ShoutChain();
  }

  lemma ShoutTagPlaced(s: string)
    requires s == Shout
    ensures Matches(s, 6, "{{ what | capitalize }}")
  {
    assert s == "Hello " + "{{ what | capitalize }}" + "!";
    MatchesBetween("Hello ", "{{ what | capitalize }}", "!");
  }

  lemma ShoutApplies()
    ensures Apply(DefaultEngine, ["capitalize"], "world", World) == Some("World")
  {
    var names := ["capitalize"];
    assert names[1..] == [];
    assert Capitalize("world", World) == "World";
  }

  lemma ShoutTag(s: string)
    requires s == Shout
    ensures ProcessTag(DefaultEngine, s, 6, World) == Success(Rendered("World", 29, World))
  {
    ShoutWritten(s);
    ShoutChain();
    ShoutApplies();
    VariableTagWritesFilteredText(DefaultEngine, s, 6, World, " ", "what", " ", ShoutLinks);
  }

  /** Blanks inside a variable tag, around the name and around a filter,
      change nothing: the filtered text is written. */
  lemma HelloShout()
    ensures Render(DefaultEngine, Shout, World) == Success(Rendered("Hello World!", 30, World))
  {
    ShoutTag(Shout);
    ShoutLayout(Shout);
    RenderOneTag(DefaultEngine, Shout, 6, World);
  }

  /** Where the one tag of `Shout` sits, and the text around it. */
  lemma ShoutLayout(s: string)
    requires s == Shout
    ensures |s| == 30 && IsTagAt(s, 6)
    ensures forall i :: 0 <= i < 6 ==> !IsTagAt(s, i)
    ensures forall i :: 29 <= i < |s| ==> !IsTagAt(s, i)
    ensures s[..6] + "World" + s[29..] == "Hello World!"
  {
    assert s[..6] == "Hello " && s[29..] == "!";
  }

  const Letters := "{% for x in items %}{{x}}{% endfor %}"
  const Items: Context := map["items" := Sequence([Text("a"), Text("b")])]

  /** The opening tag of `Letters`: `{%`, one blank, then the token `for`. */
  lemma LettersOpen(s: string)
    requires s == Letters
    ensures |s| == 37 && IsTagAt(s, 0) && s[1] == '%'
    ensures EatWhitespace(s, 2) == 3 && ReadToken(s, 3) == Scanned("for", 6)
  {
    LettersBlank(s);
    LettersForWord(s);
    TokenIs(s, 3, "for");
  }

  lemma LettersBlank(s: string)
    requires s == Letters
    ensures |s| == 37 && IsTagAt(s, 0) && s[1] == '%' && EatWhitespace(s, 2) == 3
  {
    OneBlank(s, 2);
  }

  lemma LettersForWord(s: string)
    requires s == Letters
    ensures Matches(s, 3, "for") && IsSpace(s[6])
  {
  }

  lemma LettersHeaderText()
    ensures ForHeader(" ", "x", " ", " ", "items", " ") == " x in items %}"
  {
  }

  lemma LettersHeaderWritten(s: string)
    requires s == Letters
    ensures Matches(s, 6, " x in items %}")
  {
  }

  /** The loop header follows the tag name. */
  lemma LettersHeader(s: string)
    requires s == Letters
    ensures Matches(s, 6, ForHeader(" ", "x", " ", " ", "items", " ")) && |ForHeader(" ", "x", " ", " ", "items", " ")| == 14
  {
    LettersHeaderText();
    LettersHeaderWritten(s);
  }

  /** The body is the single variable tag `{{x}}`. */
  lemma LettersBody(s: string)
    requires s == Letters
    ensures |s| == 37 && s[20] == '{' && s[21] == '{' && Matches(s, 22, "x") && s[23] == '}' && s[24] == '}'
  {
  }

  /** The lookahead at the end of the body sees `endfor`. */
  lemma LettersEndfor(s: string)
    requires s == Letters
    ensures IsNextTag(s, 25, "endfor")
  {
    LettersEndforWritten(s);
    NextTagIs(s, 25, "endfor");
  }

  lemma LettersEndforWritten(s: string)
    requires s == Letters
    ensures |s| == 37 && s[25] == '{' && s[26] == '%' && s[27] == ' '
    ensures Matches(s, 28, "endfor") && !IsIdentChar(s[34])
  {
  }

  /** `{% endfor %}` is one whole control tag ending the input. */
  lemma LettersClose(s: string)
    requires s == Letters
    ensures EatTag(s, 25) == Success(37)
  {
    SpanUnique(s, 25, IsSpace, 25);
    LettersNoPercent(s);
    SpanUnique(s, 27, NotPercent, 35);
  }

  lemma LettersNoPercent(s: string)
    requires s == Letters
    ensures AllIn(s, 27, 35, NotPercent) && s[35] == '%' && s[36] == '}' && |s| == 37
  {
  }

  /** Two passes, each writing its element's text and stopping at the same
      place, write both texts in order. */
  lemma TwoPasses(pass: Entity -> Result<Rendered>, a: Entity, b: Entity, pos: nat, end: nat, hi: nat,
                  ra: Rendered, rb: Rendered)
    requires pos <= end <= hi
    requires forall x :: pass(x).Success? ==> pos <= pass(x).value.pos <= hi
    requires pass(a) == Success(ra) && pass(b) == Success(rb) && ra.pos == end && rb.pos == end
    ensures RunPasses(pass, [a, b], pos, pos, hi) == Success(Scanned(ra.out + rb.out, end))
  {
    assert [a][1..] == [] && [b][1..] == [];
    assert RunPasses(pass, [], end, pos, hi) == Success(Scanned([], end));
    assert ra.out + [] == ra.out && rb.out + [] == rb.out;
    assert RunPasses(pass, [a], pos, pos, hi) == Success(Scanned(ra.out, end));
    assert RunPasses(pass, [b], end, pos, hi) == Success(Scanned(rb.out, end));
    RunPassesAppend(pass, [a], [b], pos, pos, hi);
    assert [a] + [b] == [a, b];
  }

  /** The loop over `a` and `b` writes `ab` and ends past `{% endfor %}`. */
  lemma LettersLoop(s: string, loop: Loop)
    requires |s| == 37 && loop == Loop("x", [Text("a"), Text("b")], 20)
    requires ProcessUntilTag(DefaultEngine, s, 20, Items["x" := Text("a")], "endfor")
               == Success(Rendered("a", 25, Items["x" := Text("a")]))
    requires ProcessUntilTag(DefaultEngine, s, 20, Items["x" := Text("b")], "endfor")
               == Success(Rendered("b", 25, Items["x" := Text("b")]))
    requires EatTag(s, 25) == Success(37)
    ensures RunLoop(DefaultEngine, s, loop, Items) == Success(Rendered("ab", 37, Items))
  {
    var pass := BodyPass(DefaultEngine, s, loop, Items);
    var ra, rb := Rendered("a", 25, Items["x" := Text("a")]), Rendered("b", 25, Items["x" := Text("b")]);
    assert pass(Text("a")) == Success(ra);
    assert pass(Text("b")) == Success(rb);
    TwoPasses(pass, Text("a"), Text("b"), 20, 25, 37, ra, rb);
    assert "a" + "b" == "ab";
    assert RunPasses(pass, loop.items, 20, 20, |s|) == Success(Scanned("ab", 25));
  }

  /** A pass over the body of `Letters` writes its element's text. */
  lemma LettersPass(s: string, c: string)
    requires s == Letters
    ensures ProcessUntilTag(DefaultEngine, s, 20, Items["x" := Text(c)], "endfor")
              == Success(Rendered(c, 25, Items["x" := Text(c)]))
  {
    LettersBody(s);
    LettersEndfor(s);
    UntilTagVariableBody(DefaultEngine, s, 20, Items, "x", c, "endfor");
  }

  /** The header of `Letters` reads a loop over `items`, with `x` as the
      loop variable and the body starting at the `{{x}}`. */
  lemma LettersParsed(s: string)
    requires Matches(s, 6, ForHeader(" ", "x", " ", " ", "items", " ")) && |ForHeader(" ", "x", " ", " ", "items", " ")| == 14
    ensures ParseForHeader(s, 6, Items) == Success(Loop("x", [Text("a"), Text("b")], 20))
  {
    assert HeaderBlanks(" ", " ", " ", " ");
    ForHeaderReads(s, 6, Items, " ", "x", " ", " ", "items", " ");
  }

  /** The `for` tag after its name: header, then the loop. */
  lemma LettersFor(s: string)
    requires s == Letters
    ensures HandleFor(DefaultEngine, s, 6, Items) == Success(Rendered("ab", 37, Items))
  {
    LettersHeader(s);
    LettersParsed(s);
    LettersPass(s, "a");
    LettersPass(s, "b");
    LettersClose(s);
    LettersLoop(s, Loop("x", [Text("a"), Text("b")], 20));
  }

  lemma LettersTag(s: string)
    requires s == Letters
    ensures ProcessTag(DefaultEngine, s, 0, Items) == Success(Rendered("ab", 37, Items))
  {
    LettersOpen(s);
    ControlTagRunsItsHandler(DefaultEngine, s, 3, Items);
    LettersFor(s);
    ChompOnlyAfterControlTags(DefaultEngine, s, 0, Items);
  }

  /** A `for` loop writes its body once per element, in order. */
  lemma LettersRender()
    ensures Render(DefaultEngine, Letters, Items) == Success(Rendered("ab", 37, Items))
  {
    LettersTag(Letters);
    LettersOpen(Letters);
    RenderOneTag(DefaultEngine, Letters, 0, Items);
    assert Letters[..0] + "ab" + Letters[37..] == "ab";
  }
}
