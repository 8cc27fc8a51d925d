# koura template engine — a Dafny model

koura renders text templates. Plain text is copied to the output, and two
kinds of tag are interpreted:

- `{{ name | f1 | f2 }}` writes the text bound to `name` in the context,
  passed through the named filters from left to right;
- `{% tag ... %}` runs a control tag: `set`, `for`, `if` or `unless`.

This project models the engine of `koura/engine.hpp` as pure functions
over the template text `s` and a cursor `p` into it. The input stream's
read position is that cursor. Each stage returns either the cursor after
what it consumed (with the text written and the context as left), or an
`Error` naming what went wrong and where.

Modules:

| module | file | contents |
|---|---|---|
| `Results` | `results.dfy` | `Option`, `Result`, error kinds |
| `Entities` | `entities.dfy` | entities (text, number, object, sequence), the context, paths into it |
| `Scanner` | `scanner.dfy` | character-level reading: text up to a tag, blanks, identifiers, tokens, tag skipping, tag look-ahead |
| `Parser` | `parser.dfy` | named entities (`x`, `obj.field`), string and number literals |
| `Renderer` | `renderer.dfy` | the render loop, tag dispatch, `set`, `for`, `if`, `unless`, variable tags, filters |
| `Loops` | `loops.dfy` | what a `for` loop does, stated over its passes |
| `Pipeline` | `pipeline.dfy` | a filter chain related to a reference reading (apply each filter in turn) |
| `Properties` | `properties.dfy` | end-to-end properties of the renderer |
| `Examples` | `examples.dfy` | four small templates rendered in full: a variable tag, a variable tag with blanks and a filter, a registered custom filter, a `for` loop |

Where the source leaves a case to a `//TODO error` and then does something
undefined or non-terminating, the model reports an error:

| kind | when |
|---|---|
| `SyntaxError` | a tag is not closed as the code expects, or a literal is not terminated |
| `NameError` | a name is not in the context |
| `FieldError` | an object has no such field |
| `TypeError` | an entity of the wrong kind is used |
| `UnknownHandler` | a control tag name is not registered |
| `UnknownFilter` | a filter name is not registered |
| `Unimplemented` | a list literal is used |

Where the code and its design description disagree, the model follows the
code:

- an empty `for` loop does not look for its `endfor`. It consumes one
  control tag at the start of the body. When the body starts (after
  blanks) with `{%`, that is the body's first control tag. Otherwise it is
  a SyntaxError, as in `{% for x in xs %}{{x}}{% endfor %}` with `xs` empty;
- `set` on a variable bound to a number fails, because the named-entity
  parser has no case for numbers;
- `set` on a sequence leaves the context as it is.

There are two exceptions, both in field access (`name.field`):

- the code leaves the `.` unread, so it can only ever look up the empty
  field name. The model consumes the `.`, as intended, and the as-written
  behaviour is kept beside it (see "Findings");
- the code copies the object into a local and returns an `entity&` to a
  field of that copy (koura/engine.hpp:54, :79). The reference dangles once
  the function returns, so any read or write through it is undefined
  behaviour. The model reads and writes the field in the context itself.

## Model

| member | source | states |
|---|---|---|
| Scanner.StreamUpToTag | koura/engine.hpp:19-31 | The text copied is exactly the input up to the first `{{` or `{%` (or to the end), none of it starts a tag, and the cursor stops on that tag. |
| Scanner.EatWhitespace | koura/engine.hpp:33-37 | The cursor moves forward and stops at the end or on a non-blank. |
| Scanner.EatWhitespaceSkipsBlanks | koura/engine.hpp:33-37 | Every character skipped is a blank. |
| Scanner.Peek | koura/engine.hpp:39-42 | The character returned is the first non-blank at or after the cursor. Every character skipped before it is a blank, and the cursor stops on it. At the end there is none, and the cursor is at the end. |
| Scanner.GetIdentifierSpec | koura/engine.hpp:44-52 | An identifier is the longest run of letters and `_` after the blanks, and reading stops on the first other character. |
| Scanner.IdentifierIs | koura/engine.hpp:44-52 | A name written at the cursor, followed by a non-identifier character, is read back as exactly that name. |
| Scanner.ExpectTextSpec | koura/engine.hpp:118-124 | `expect_text` succeeds exactly when the next blank-delimited token is the expected word, and consumes that token. |
| Scanner.EatTagSpec | koura/engine.hpp:126-143 | Skipping a tag needs `{%` after the blanks, then skips to the first `%`, which must be followed by `}`. The cursor ends after that `}`. |
| Scanner.IsNextTagIff | koura/engine.hpp:146-173 | The look-ahead is true exactly when `{%`, blanks, and then an identifier equal to the tag name come next; it consumes nothing. |
| Scanner.NextTagIs | koura/engine.hpp:146-173 | `{% name` written with one blank after `{%` is seen by the look-ahead as a tag named `name`. |
| Scanner.TokenIs | koura/engine.hpp:313-315 | A blank-free word written at the cursor and followed by a blank or the end is read back as exactly that token. |
| Parser.ParseNamedEntity | koura/engine.hpp:54-85 | A resolved name is the identifier read. Its entity is what the context holds at the resolved path. A plain name resolves only to text or a sequence. A NameError happens exactly when the name is unbound. |
| Parser.NamedEntitySpec | koura/engine.hpp:54-85 | Every outcome of resolving a name. Unbound is a NameError. A text or sequence resolves to the binding itself, with the cursor after the blanks. A number, or an object not followed by `.`, is a TypeError. For an object followed by `.`, the field read after the `.` resolves to that field's value, or is a FieldError when the object has no such field. |
| Parser.FieldAccessResolves | koura/engine.hpp:64-80 | With the `.` consumed, `name.field` resolves to that field of the object for every object that has it. The cursor ends after the field name. |
| Parser.AsWrittenFieldAccessFails | koura/engine.hpp:65-72 | As written, the `.` is left unread, so the field name read is empty. `name.field` then fails for every object that has no empty-named field. |
| Parser.ParseNamedEntityAsWritten | koura/engine.hpp:64-80 | As written, a field access can only ever resolve the empty field name. |
| Parser.ParseStringLiteral | koura/engine.hpp:90-97 | A literal's text is the input between the opening quote and the next quote, and the cursor ends after the closing quote. |
| Parser.StringLiteralSpec | koura/engine.hpp:90-97 | A literal's text holds no quote, and parsing fails exactly when no closing quote follows. |
| Parser.StringLiteralRoundTrip | koura/engine.hpp:87-97 | Parsing a quoted quote-free text yields that text as a Text entity, with the cursor right after the closing quote. |
| Parser.ParseNumber | koura/engine.hpp:100-103 | A number is the longest run of digits at the cursor, and its value is the decimal value of that run. |
| Parser.ParseEntity | koura/engine.hpp:87-115 | A parsed entity ends at or after the cursor, within the input. |
| Parser.ParseEntityDispatch | koura/engine.hpp:87-115 | The first non-blank character selects the literal. A digit gives a number: the longest digit run there, with its decimal value. `[` gives an Unimplemented error at that character. A `'` gives the string literal's text, failing exactly when the literal does. Anything else is a named entity: the result is the resolved entity with the name's cursor, or the name's own error. |
| Entities.Lookup | koura/engine.hpp:54-85 | A path names something exactly when its variable is bound and, for a field path, is an object with that field. The entity named is the binding, or that field of it. |
| Entities.Store | koura/engine.hpp:225-236 | Writing at a path makes the path hold the new entity. The context keeps its names, no other name changes, and an object keeps its other fields. |
| Renderer.Assign | koura/engine.hpp:223-240 | `set` keeps the target's kind: the target takes the new value only when the value is of the same kind, otherwise it is a TypeError. A sequence target is left unchanged. Only the named binding can change. |
| Renderer.HandleSet | koura/engine.hpp:219-245 | `set` writes nothing, needs the tag closed by `%}` after blanks, and changes at most the named binding, keeping its kind. |
| Renderer.CloseControlTag | koura/engine.hpp:242-244 | After blanks, a control tag closes exactly when `%}` follows. The cursor then ends right after the `%}`, nothing is written and the context is unchanged. Otherwise it is a SyntaxError at the first non-blank. |
| Renderer.HandleIf | koura/engine.hpp:247-251 | `if` succeeds exactly when its operand parses, stops where the operand ends, writes nothing and leaves the context alone. |
| Renderer.HandlerOf | koura/engine.hpp:259-265 | The handler table holds exactly `if`, `unless`, `set` and `for`. Each of those names selects its own handler, and no other name selects one. |
| Renderer.HandleExpressionTag | koura/engine.hpp:313-322 | A control tag whose name is not in the table is an UnknownHandler error. A handler never changes the kind of a binding. |
| Properties.ControlTagRunsItsHandler | koura/engine.hpp:313-322 | The control tag's name is the next blank-delimited token. `for`, `set` and `if` run their handlers from the cursor after that token, and `unless` does nothing there. Any other name is an UnknownHandler error at the cursor after the token. |
| Renderer.HandleVariableTag | koura/engine.hpp:291-311 | A variable tag ends after a closing `}}` and never changes the context. |
| Renderer.HandleFilter | koura/engine.hpp:324-332 | A filter step succeeds exactly when the identifier read is a registered filter. The result is then that filter applied to the text, with the cursor after the identifier. Otherwise it is an UnknownFilter error where the identifier ends. |
| Renderer.ApplyFilters | koura/engine.hpp:299-305 | The chain stops only at the end or at a character that is not `\|`, and its only failure is an unknown filter. |
| Renderer.Capitalize | koura/engine.hpp:267-269 | The built-in filter upper-cases a leading ASCII lower-case letter and leaves every other character, and every other text, unchanged. |
| Renderer.ParseForHeader | koura/engine.hpp:187-201 | The loop variable is the identifier read, and the body starts right after a `%}`. |
| Loops.ForHeaderReads | koura/engine.hpp:187-201 | The header `x in name %}` may have any blanks around its words, with at least one on each side of `in`. If `name` is bound to a sequence, the loop runs over its elements with `x` as its variable, and the body starts right after `%}`. A text binding is a TypeError after the `%}`. A number or object binding is a TypeError at the `%`. An unbound `name` is a NameError where the name ends. |
| Renderer.HandleFor | koura/engine.hpp:187-213 | A `for` tag consumes input and leaves the enclosing context unchanged. |
| Renderer.RunLoop | koura/engine.hpp:204-212 | The loop ends after the tag it consumes, and the enclosing context comes back unchanged. |
| Renderer.RunPasses | koura/engine.hpp:204-210 | Every pass over the elements stops within the body's range. |
| Renderer.ProcessUntilTag | koura/engine.hpp:177-185 | It stops only where the look-ahead sees the awaited tag, and leaves every binding's kind as it was. |
| Properties.UntilTagStep | koura/engine.hpp:177-185 | What one round writes: the literal text before the next tag. Unless the look-ahead sees the awaited tag there, the tag's output and then the rest's output follow, in the context the tag left. The first error met is the result. |
| Properties.UntilTagOneTag | koura/engine.hpp:177-185 | A body with one tag before the awaited one writes the text before the tag, the tag's output and the text after it. It stops on the awaited tag. |
| Properties.UntilTagVariableBody | koura/engine.hpp:177-185 | A body that is exactly `{{x}}`, with `x` bound to a text, writes that text and stops on the awaited tag. |
| Properties.VariableTagAlone | koura/engine.hpp:291-311 | `{{x}}` with no filters writes the text bound to `x` and ends after `}}`. |
| Renderer.ProcessTag | koura/engine.hpp:340-356 | Processing a tag always consumes input. Without a `{` at the cursor it is a syntax error. |
| Renderer.Chomp | koura/engine.hpp:354 | Exactly one character is dropped after a control tag when it is a newline, and none otherwise. |
| Renderer.RenderFrom | koura/engine.hpp:272-279 | The render loop reads to the end of the template and keeps every binding's kind. |
| Renderer.Render | koura/engine.hpp:272-279 | A successful render consumes the whole template and keeps every binding's kind. |
| Loops.RunPassesAppend | koura/engine.hpp:204-210 | Running the passes over `a + b` is running them over `a`, then over `b` from where `a` stopped, with the outputs joined. |
| Loops.RunPassesSpec | koura/engine.hpp:204-210 | The passes all succeed exactly when no element's pass fails, and the first failing pass's error is the result. On success the output is every pass's output in element order, and the cursor is where the last pass stopped. |
| Loops.ForLoopSpec | koura/engine.hpp:187-213 | Each pass renders the body up to `endfor` with the loop variable bound to the element. The loop writes the passes' outputs in order, then consumes one tag where the last pass stopped. An empty loop consumes one at the body start. The enclosing context comes back unchanged. |
| Pipeline.ChainResultMeans | koura/engine.hpp:300-305 | Reading a chain succeeds exactly when the reference reading does, which applies every filter in turn, first to last. The text then agrees, the cursor ends after the chain, and a failure is an unknown filter. |
| Pipeline.FiltersApplyLeftToRight | koura/engine.hpp:299-305 | A chain `\| f1 \| f2 ...`, with any blanks around each `\|` and name, applies its filters strictly left to right. It succeeds exactly when every name is registered, and the text is then the reference reading's and the cursor is after the chain. Otherwise it is an unknown filter. |
| Pipeline.VariableTagBody | koura/engine.hpp:291-311 | After `{{` and its blanks come a text-valued name, blanks, a filter chain with any blanks, and `}}`. The tag then writes the filtered text, ends after `}}` and leaves the context alone. It fails exactly when a filter is unknown. |
| Pipeline.FieldTagBody | koura/engine.hpp:291-311 | After `{{` and its blanks come `name.field`, for an object with a text-valued field, then a filter chain and `}}`. The tag then writes the field's text after every filter, ends after `}}` and leaves the context alone. It fails exactly when a filter is unknown. |
| Pipeline.ChainStep | koura/engine.hpp:299-305 | One link `\| name` of a chain: an unregistered name is an UnknownFilter error where the name ends. A registered one applies that filter, and the chain goes on from after the blanks that follow. |
| Properties.VariableTagWritesFilteredText | koura/engine.hpp:291-311 | A whole `{{ name \| f1 ... }}` tag, with any blanks, writes the named text passed through the filters in order. It ends right after `}}`, without dropping a newline, and leaves the context unchanged. It fails exactly when a filter is unregistered. |
| Properties.FieldTagWritesFilteredText | koura/engine.hpp:291-311 | A whole `{{ obj.field \| f1 ... }}` tag, for an object with a text-valued field, writes that text passed through the filters in order. It ends right after `}}` and leaves the context unchanged. It fails exactly when a filter is unregistered. |
| Properties.VariableTagNeedsText | koura/engine.hpp:291-295 | A variable tag whose reference fails reports the reference's error. A reference that resolves to anything but text is a TypeError where the reference ends. |
| Properties.SequenceTagFails | koura/engine.hpp:291-295 | `{{ xs ...` with `xs` bound to a sequence is a TypeError at the end of the blanks after the name, whatever follows. |
| Properties.ChompOnlyAfterControlTags | koura/engine.hpp:340-356 | A control tag drops exactly one newline directly after it, and only when one is there. A variable tag drops none. |
| Properties.UntilTagCopiesPlainText | koura/engine.hpp:177-185 | Rendering up to an awaited tag, through tag-free text, copies that text verbatim and stops on the tag. |
| Properties.RenderTagFree | koura/engine.hpp:272-279 | A template with no `{{` or `{%` renders as itself, and the context is unchanged. |
| Properties.RenderFromStep | koura/engine.hpp:272-279 | One round of the render loop writes the literal text up to the next tag, then what the tag writes, then the render of the rest from where the tag stopped, in the context the tag left. The first error met is the result. |
| Properties.RenderFromEnd | koura/engine.hpp:272-279 | With no tag left, the render copies the rest of the input, ends at its end and keeps the context. |
| Properties.RenderOneTag | koura/engine.hpp:272-279 | A template with exactly one tag renders as the text before it, what the tag writes, and the text after it, with the context as the tag left it. |
| Properties.SetTextFromLiteral | koura/engine.hpp:219-245 | `{% set name 'w'%}`, with `%}` right after the closing quote, on a text binding rebinds `name` to `w`, writes nothing and ends after `%}`. |
| Properties.SetWritesSource | koura/engine.hpp:219-245 | `set target source` reports the target's error, then the source's. A target that is not a sequence and has a different kind from the source is a TypeError. Otherwise the tag succeeds exactly when `%}` closes it. The target then holds the source value in the context, and a sequence target leaves the context unchanged. |
| Examples.HelloWorld | koura/engine.hpp:272-279 | `Hello {{what}}!`, with `what` bound to `world`, renders as `Hello world!`. |
| Examples.HelloShout | koura/engine.hpp:291-311 | `Hello {{ what \| capitalize }}!`, with `what` bound to `world`, renders as `Hello World!`. |
| Examples.HelloCheese | tests/test.cpp:9-19 | With a custom filter `change_to_cheese` registered, `Hello {{what\|change_to_cheese}}` renders as `Hello cheese`. |
| Examples.LettersRender | koura/engine.hpp:187-213 | `{% for x in items %}{{x}}{% endfor %}`, with `items` bound to the texts `a` and `b`, renders as `ab`. The context is unchanged. |

## Left out

- Stream state (fail bits, `unget`, `seekg`) is not modelled as such. The cursor into the template text stands for the stream position.
- Output is not streamed. A render that fails returns only its error, not the text written before the failure.
- The source's `//TODO error` branches do not stop; they go on with undefined or non-terminating behaviour. Each of them is modelled as an `Error` at the cursor.
- `eat_tag` with no `%` left loops at the end of input forever; the model reports a SyntaxError.
- A string literal with no closing quote reads past the end forever; the model reports a SyntaxError.
- The named-entity parser falls off the end of the function for a number, or for an object not followed by `.`; the model reports a TypeError.
- A missing handler or filter is looked up with `operator[]`, which calls an empty function. The model reports UnknownHandler or UnknownFilter.
- The source's `assert`s are modelled as in a debug build: the closing `}}` or `%}` is consumed, and a mismatch is an error. A build with `NDEBUG` would consume nothing there.
- `register_custom_expression` is not modelled; the handler table is fixed. `register_custom_filter` is modelled by the engine's filter map, which any caller may extend.
- `if` and `unless` are modelled as the code has them. `if` parses its operand and nothing more, and `unless` does nothing. Their bodies and the rest of their tags are then rendered as ordinary text. There are no conditional semantics.
- List literals (`[`) are unimplemented in the source and are an error here.
- `set` with a sequence target is a `//TODO` no-op in the source, and is one here.
- Numbers are the values of digit runs (no sign, no fraction, no width). The width of `number_t` is not part of this model.
- The context type (`koura/context.hpp`) is not part of this model. It is a map from names to entities. Binding the loop variable replaces any earlier binding of that name for the pass.
- Field access returns the field's value, and `set` through a field writes that field. The source returns a reference to a field of a local copy of the object, which dangles after the return (undefined behaviour).
- The `capitalize` filter's source (`koura/filters.hpp`) is not part of this model. It is modelled as upper-casing a leading ASCII lower-case letter.
- Renderer.HandleVariableTag: its own contract gives only the cursor, the closing `}}` and the unchanged context. What it writes is stated by Pipeline.VariableTagBody and Pipeline.FieldTagBody, and its errors by Properties.VariableTagNeedsText.
- Renderer.HandleFor: its own contract gives only the cursor and the unchanged context. What the loop writes is stated by Loops.ForLoopSpec.
- Renderer.RunLoop: its own contract gives only the cursor and the unchanged context. Its meaning is stated by Loops.ForLoopSpec.
- Parser.ParseEntity: its own contract gives only the cursor bounds. What each first character selects is stated by Parser.ParseEntityDispatch.
- Renderer.HandleIf: its contract states only the operand's parse, that nothing is written and that the context is unchanged, since the source gives `if` no meaning yet.
- Renderer.RunPasses: its own contract gives only the cursor bounds. What the passes write is stated by Loops.RunPassesSpec.
- Renderer.ProcessUntilTag: its own contract gives only where it stops and the kinds of the bindings. What it writes is stated by Properties.UntilTagStep, Properties.UntilTagOneTag and Properties.UntilTagVariableBody.
- Renderer.HandleSet: its own contract gives only the closing `%}`, the empty output and that only the named binding may change. Which value the target takes, and each error case, are stated by Properties.SetWritesSource.
- Parser.ParseNamedEntity: its own contract does not give the error cases or the field access. Every outcome is stated by Parser.NamedEntitySpec.
- Renderer.HandleExpressionTag: its own contract gives only the cursor, the kinds of the bindings and the unknown-name error. Which handler each name runs is stated by Properties.ControlTagRunsItsHandler.
- Renderer.ApplyFilters: its own contract gives only where the chain stops and its failure kind. What a written chain computes is stated by Pipeline.FiltersApplyLeftToRight, Pipeline.ChainStep and Pipeline.ChainResultMeans.
- Pipeline.FiltersApplyLeftToRight: states only the kind of a failure. Where it occurs (the end of the first unregistered name) is stated by Pipeline.ChainStep.
- Renderer.ParseForHeader: its own contract gives only the loop variable and where the body starts. Each outcome for a written header is stated by Loops.ForHeaderReads.
- Loops.ForHeaderReads: needs a nonempty loop variable. With none, as in `{% for in xs %}`, the identifier reader skips the blanks and reads `in` as the variable; that case is not stated.
- Renderer.ProcessTag: its own contract gives only that input is consumed, that the kinds of the bindings are kept, and the error without a `{`. What a tag does is stated by Properties.VariableTagWritesFilteredText, Properties.FieldTagWritesFilteredText, Properties.SequenceTagFails, Properties.ControlTagRunsItsHandler and Properties.ChompOnlyAfterControlTags.
- Renderer.RenderFrom: its own contract gives only that the whole input is read and the kinds of the bindings are kept. Each round is stated by Properties.RenderFromStep, and the last by Properties.RenderFromEnd.
- Renderer.Render: its own contract gives only that the whole input is read and the kinds of the bindings are kept. Its output is stated through Properties.RenderFromStep and, for whole templates, by Properties.RenderTagFree and Properties.RenderOneTag.
- Properties.FieldTagWritesFilteredText: covers no blanks after the name, around the `.`, or between the field name and the chain. The parser accepts blanks in each of those places.
- `register_custom_filter` uses `emplace` (koura/engine.hpp:285-287), which keeps an already registered filter of the same name. The examples extend the engine's filter map with a map update, which would replace one. They register only a new name, where the two agree.
- Filters receive the context read-only. In the source, `filter_t` takes `context&` (koura/engine.hpp:257), so a filter could change the context; no built-in filter does, and the model's filters cannot.

## Findings

| source | as written | input that shows it | evidently intended | confidence | as-written member | corrected member |
|---|---|---|---|---|---|---|
| koura/engine.hpp:65-72 | After an object's name, the `.` is only peeked. The field name is then read starting at the `.`, so it is always empty. | `{{obj.a}}` with `obj` bound to an object whose field `a` is `'hi'` | The `.` is consumed and `a` is read, so the tag writes `hi` | high; not executed | Parser.AsWrittenFieldAccessFails | Properties.FieldTagWritesFilteredText |
