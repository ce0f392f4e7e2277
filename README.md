# MessageFormat 2 AST: spans, number literals and visitor dispatch

This project models the abstract syntax tree of a MessageFormat 2 parser (`parser/src/ast.rs`) and proves properties of three things it does:

- **Span derivation.** Every node reports the source range it covers.
  - Some nodes return the span they were built with.
  - Leaf nodes take their start plus the width of their own text.
  - Composite nodes take the range from their children. When a collection is empty they fall back through a fixed chain: a `Matcher` ends at its last variant, else its last selector, else just past `.match`.
- **Number literal decomposition.** A `Number` stores its raw text, a sign flag, the integral length, an optional fraction length and an optional signed exponent length. It derives the integral, fractional and exponent sub-spans from these and slices its text with them.
- **Visitor dispatch.** Each node fires the visitor callback for its own type (`apply_visitor`) and applies the visitor to its children in field order (`apply_visitor_to_children`).

## Files

- `wrappers.dfy` (module `Wrappers`): `Option`.
- `locations.dfy` (module `Locations`):
  - source offsets (`Location = nat`) and `Span`;
  - an abstract character-width `Metric` carrying the dummy location;
  - `AsciiUnit`, the assumption that every ASCII character is one unit wide.
- `ast.dfy` (module `Ast`):
  - one datatype per node type;
  - `Span` for every node;
  - the `Number` accessors exactly as written;
  - `Apply` / `ApplyToChildren` as functions returning the sequence of events a fully recursing visitor records.
- `trees.dfy` (module `Trees`): a generic labelled tree with span rules. It proves that a well-built tree's pre-order is in source order, nested inside the root's span, and one event per node.
- `ast_tree.dfy` (module `AstTrees`): maps every AST node onto such a tree. It proves that each node's `Span`, `Apply` and `ApplyToChildren` agree with the tree, and concludes with `MessageDispatch`, which holds for every message, and `MessageWalk`, which holds for messages whose tree satisfies `Built`.
- `numbers.dfy` (module `Numbers`):
  - the layout of a number literal;
  - corrected accessors that slice relative to the literal's start;
  - round trips in both directions;
  - the example that shows the as-written slice misreading a literal.
- `tracing.dfy` (module `Tracing`): the visitor as a class whose `trace` field each `Apply…` method appends to, one loop per repeated field. Each method is proved to append exactly the events the `Ast` functions specify.

Modelling decisions:

- **Widths are abstract.**
  - `Location::dummy()` is the opaque `Metric.dummy`.
  - Advancing a location by a character or a string adds an abstract width (`Metric.charWidth`).
  - Facts that need concrete widths, such as the number layout or a star being one unit, assume `AsciiUnit`.
- **Wrapper enums are not transparent.** Each wrapper enum generated by the `ast_enum!` macro (lines 10-50) fires its own callback, for example `visit_pattern_part` or `visit_expression`, and has the active variant as its only child. The trees and the trace follow this code.
- **`Message` is the one transparent wrapper.** It fires no event of its own (lines 76-90).

## Model

| member | source | states |
|---|---|---|
| Ast.Escape.Span | parser/src/ast.rs:156-160 | an escape spans its start to its start plus the width of a backslash and the escaped character |
| Ast.Identifier.Span | parser/src/ast.rs:301-311 | an identifier spans its start to its start plus the width of `namespace:name`, or of `name` alone when there is no namespace |
| Ast.TextWidth | parser/src/ast.rs:136-140 | a text run starts at its start, and with one-unit ASCII characters its span is exactly as long as its content |
| Ast.NumberWidth | parser/src/ast.rs:538-542 | a number starts at its start, and with one-unit ASCII characters its span is exactly as long as its raw text |
| Ast.StarWidth | parser/src/ast.rs:903-907 | with one-unit ASCII characters a star is exactly one unit long |
| Ast.EscapeWidth | parser/src/ast.rs:156-160 | with one-unit ASCII characters an escape is one unit plus the escaped character's width |
| Ast.IdentifierWidth | parser/src/ast.rs:301-311 | with one-unit ASCII characters an identifier adds the namespace width and one colon only when a namespace is present, then the name width |
| Numbers.IntegralLayout | parser/src/ast.rs:557-575 | the integral span starts at `start`, one later exactly when the number is negative, and is `integral_len` long |
| Numbers.FractionLayout | parser/src/ast.rs:577-587 | the fractional span exists exactly when `fractional_len` does, starts one past the integral end and is `fractional_len` long |
| Numbers.ExponentLayout | parser/src/ast.rs:589-613 | the exponent span exists exactly when `exponent_len` does, starts past the integral end, the point and fraction when present, the `e`, and one more character exactly when the sign is not `None`, is as long as stored, and the exponent part returns the stored sign |
| Numbers.NumberLayout | parser/src/ast.rs:557-613 | all of the integral, fractional and exponent layout facts above together |
| Numbers.NumberEndsAtLastPart | parser/src/ast.rs:538-613 | for an ASCII literal laid out as its lengths describe, the literal's span ends where the exponent span ends, else the fractional span, else the integral span |
| Numbers.IntegralDigits | parser/src/ast.rs:557-575 | corrected integral part: exactly `integral_len` characters |
| Numbers.FractionalDigits | parser/src/ast.rs:577-587 | corrected fractional part: present exactly when `fractional_len` is, and that long |
| Numbers.ExponentDigits | parser/src/ast.rs:589-613 | corrected exponent part: present exactly when `exponent_len` is, with the stored sign and the stored length |
| Numbers.AssembleRoundTrip | parser/src/ast.rs:552-613 | for a literal written at any start from a sign flag, integral digits, optional fraction and optional signed exponent, the corrected accessors return exactly those parts, and the text has the layout its lengths describe |
| Numbers.LaidRoundTrip | parser/src/ast.rs:552-613 | conversely, a literal whose text has the layout its lengths describe is rebuilt exactly from the parts the corrected accessors return |
| Numbers.AccessorsAtStartZero | parser/src/ast.rs:553-613 | for a literal at location 0, the accessors as written agree with the corrected ones |
| Numbers.AbsoluteRoundTripAtZero | parser/src/ast.rs:553-613 | for a literal at location 0, the accessors as written return exactly the parts it was written from |
| Numbers.AbsoluteSliceMisreads | parser/src/ast.rs:553-555 | `1.5` at location 1: the as-written integral part is `.`, the fractional span runs past the end of `raw`, and the corrected parts are `1` and `5` |
| Numbers.NegativeExponentExample | parser/src/ast.rs:557-613 | `-12.34e-5` at location 0 has integral span 1..3, fractional span 4..6, exponent span 8..9 and span 0..9 |
| AstTrees.MessageAgrees | parser/src/ast.rs:67-90 | the span is the inner pattern's or complex message's, and both dispatch operations forward to the inner node, firing no event of their own |
| AstTrees.PatternAgrees | parser/src/ast.rs:97-118 | its tree follows the span rules: the span runs from the first part's start to the last part's end, and is dummy..dummy with no parts; the node fires its own event, then each part's events in order |
| AstTrees.PatternPartAgrees | parser/src/ast.rs:30-48 | a `PatternPart`'s span is its active variant's; it fires its own `PatternPart` event, then exactly the active variant's events, as its only child |
| AstTrees.TextAgrees | parser/src/ast.rs:136-148 | its tree follows the span rules: the span is start..start+width(content); the node fires its own event and has no children |
| AstTrees.EscapeAgrees | parser/src/ast.rs:156-168 | its tree follows the span rules: the span is start..start+width of the escape's text; the node fires its own event and has no children |
| AstTrees.ExpressionAgrees | parser/src/ast.rs:30-48 | a `Expression`'s span is its active variant's; it fires its own `Expression` event, then exactly the active variant's events, as its only child |
| AstTrees.LiteralExpressionAgrees | parser/src/ast.rs:187-207 | its tree follows the span rules: the stored span is returned; the children are the literal, then the annotation only when present, then the attributes in order |
| AstTrees.VariableExpressionAgrees | parser/src/ast.rs:217-237 | its tree follows the span rules: the stored span is returned; the children are the variable, then the annotation only when present, then the attributes in order |
| AstTrees.VariableAgrees | parser/src/ast.rs:245-257 | its tree follows the span rules: the stored span is returned, not one derived from the name; the node fires its own event and has no children |
| AstTrees.AnnotationExpressionAgrees | parser/src/ast.rs:266-283 | its tree follows the span rules: the stored span is returned; the children are the annotation, then the attributes in order |
| AstTrees.AnnotationAgrees | parser/src/ast.rs:30-48 | a `Annotation`'s span is its active variant's; it fires its own `Annotation` event, then exactly the active variant's events, as its only child |
| AstTrees.IdentifierAgrees | parser/src/ast.rs:301-319 | its tree follows the span rules: the span is start..start+width of the identifier's text; the node fires its own event and has no children |
| AstTrees.FunctionAgrees | parser/src/ast.rs:328-350 | its tree follows the span rules: the span starts at the stored start and ends at the last option's end, else at the id's end; the children are the id, then the options in order |
| AstTrees.OptionAgrees | parser/src/ast.rs:358-375 | its tree follows the span rules: the span runs from the key's start to the value's end; the children are the key, then the value |
| AstTrees.AttributeAgrees | parser/src/ast.rs:384-401 | its tree follows the span rules: the stored span is returned; the children are the key, then the value only when present |
| AstTrees.LiteralOrVariableAgrees | parser/src/ast.rs:30-48 | a `LiteralOrVariable`'s span is its active variant's; it fires its own `LiteralOrVariable` event, then exactly the active variant's events, as its only child |
| AstTrees.PrivateUseAnnotationAgrees | parser/src/ast.rs:418-439 | its tree follows the span rules: the span starts at the stored start and ends at the last body part's end, else one sigil past the start; the children are the body parts in order |
| AstTrees.ReservedAnnotationAgrees | parser/src/ast.rs:448-469 | its tree follows the span rules: the span starts at the stored start and ends at the last body part's end, else one sigil past the start; the children are the body parts in order |
| AstTrees.BodyPartAgrees | parser/src/ast.rs:30-48 | a `ReservedBodyPart`'s span is its active variant's; it fires its own `ReservedBodyPart` event, then exactly the active variant's events, as its only child |
| AstTrees.LiteralAgrees | parser/src/ast.rs:30-48 | a `Literal`'s span is its active variant's; it fires its own `Literal` event, then exactly the active variant's events, as its only child |
| AstTrees.QuotedAgrees | parser/src/ast.rs:495-511 | its tree follows the span rules: the stored span is returned; the children are the parts in order |
| AstTrees.QuotedPartAgrees | parser/src/ast.rs:30-48 | a `QuotedPart`'s span is its active variant's; it fires its own `QuotedPart` event, then exactly the active variant's events, as its only child |
| AstTrees.NumberAgrees | parser/src/ast.rs:538-550 | its tree follows the span rules: the span is start..start+width(raw); the node fires its own event and has no children |
| AstTrees.MarkupAgrees | parser/src/ast.rs:632-652 | its tree follows the span rules: the stored span is returned; the children are the id, then the options, then the attributes, in order |
| AstTrees.ComplexMessageAgrees | parser/src/ast.rs:660-687 | its tree follows the span rules: the span runs from the smaller of the first declaration's and the body's start to the larger of the last declaration's and the body's end, and is the body's span with no declarations; the children are the declarations in order, then the body |
| AstTrees.DeclarationAgrees | parser/src/ast.rs:30-48 | a `Declaration`'s span is its active variant's; it fires its own `Declaration` event, then exactly the active variant's events, as its only child |
| AstTrees.InputDeclarationAgrees | parser/src/ast.rs:704-720 | its tree follows the span rules: the span runs from the stored start to the expression's end; the only child is the expression |
| AstTrees.LocalDeclarationAgrees | parser/src/ast.rs:729-746 | its tree follows the span rules: the span runs from the stored start to the expression's end; the children are the variable, then the expression |
| AstTrees.ReservedStatementAgrees | parser/src/ast.rs:756-787 | its tree follows the span rules: the span starts at the stored start and ends at the last expression's end, else the last body part's end, else past `.` and the name; the children are the body parts, then the expressions, in order |
| AstTrees.ComplexMessageBodyAgrees | parser/src/ast.rs:30-48 | a `ComplexMessageBody`'s span is its active variant's; it fires its own `ComplexMessageBody` event, then exactly the active variant's events, as its only child |
| AstTrees.QuotedPatternAgrees | parser/src/ast.rs:803-817 | its tree follows the span rules: the stored span is returned; the only child is the pattern |
| AstTrees.MatcherAgrees | parser/src/ast.rs:826-857 | its tree follows the span rules: the span starts at the stored start and ends at the last variant's end, else the last selector's end, else past `.match`; the children are the selectors, then the variants, in order |
| AstTrees.VariantAgrees | parser/src/ast.rs:865-888 | its tree follows the span rules: the span starts at the first key's start, or the pattern's start with no keys, and ends at the pattern's end; the children are the keys in order, then the pattern |
| AstTrees.KeyAgrees | parser/src/ast.rs:30-48 | a `Key`'s span is its active variant's; it fires its own `Key` event, then exactly the active variant's events, as its only child |
| AstTrees.StarAgrees | parser/src/ast.rs:903-915 | its tree follows the span rules: the span is start..start+width(`*`); the node fires its own event and has no children |
| AstTrees.ComplexMessageSpanRule | parser/src/ast.rs:660-674 | the complex message's span is the min/max union of its first and last declaration and its body, and the body's span without declarations |
| AstTrees.OptionalAnnotationAgrees | parser/src/ast.rs:200-202 | an optional annotation is visited only when present; every element's tree follows the span rules |
| AstTrees.PatternPartsAgree | parser/src/ast.rs:114-116 | the parts are visited in order, each part's events in turn; every element's tree follows the span rules |
| AstTrees.AttributesAgree | parser/src/ast.rs:203-205 | the attributes are visited in order; every element's tree follows the span rules |
| AstTrees.OptionsAgree | parser/src/ast.rs:346-348 | the options are visited in order; every element's tree follows the span rules |
| AstTrees.BodyPartsAgree | parser/src/ast.rs:435-437 | the body parts are visited in order; every element's tree follows the span rules |
| AstTrees.QuotedPartsAgree | parser/src/ast.rs:506-509 | the quoted parts are visited in order; every element's tree follows the span rules |
| AstTrees.DeclarationsAgree | parser/src/ast.rs:682-684 | the declarations are visited in order; every element's tree follows the span rules |
| AstTrees.ExpressionsAgree | parser/src/ast.rs:783-785 | the expressions are visited in order; every element's tree follows the span rules |
| AstTrees.VariantsAgree | parser/src/ast.rs:853-855 | the variants are visited in order; every element's tree follows the span rules |
| AstTrees.KeysAgree | parser/src/ast.rs:883-885 | the keys are visited in order; every element's tree follows the span rules |
| AstTrees.MarkupChildrenAgree | parser/src/ast.rs:643-651 | the children of a `Markup` follow the span rules and emit, in field order, the id's events, then each option's, then each attribute's |
| AstTrees.LiteralExpressionChildrenAgree | parser/src/ast.rs:198-206 | the children of a `LiteralExpression` follow the span rules and emit, in field order, the literal's events, then the annotation's only when present, then each attribute's |
| AstTrees.VariableExpressionChildrenAgree | parser/src/ast.rs:228-236 | the children of a `VariableExpression` follow the span rules and emit, in field order, the variable's events, then the annotation's only when present, then each attribute's |
| AstTrees.AnnotationExpressionChildrenAgree | parser/src/ast.rs:277-282 | the children of a `AnnotationExpression` follow the span rules and emit, in field order, the annotation's events, then each attribute's |
| AstTrees.FunctionChildrenAgree | parser/src/ast.rs:344-349 | the children of a `Function` follow the span rules and emit, in field order, the id's events, then each option's |
| AstTrees.ComplexMessageChildrenAgree | parser/src/ast.rs:681-686 | the children of a `ComplexMessage` follow the span rules and emit, in field order, each declaration's events, then the body's |
| AstTrees.ReservedStatementChildrenAgree | parser/src/ast.rs:779-786 | the children of a `ReservedStatement` follow the span rules and emit, in field order, each body part's events, then each expression's |
| AstTrees.MatcherChildrenAgree | parser/src/ast.rs:849-856 | the children of a `Matcher` follow the span rules and emit, in field order, each selector's events, then each variant's |
| AstTrees.VariantChildrenAgree | parser/src/ast.rs:882-887 | the children of a `Variant` follow the span rules and emit, in field order, each key's events, then the pattern's |
| AstTrees.MessageDispatch | parser/src/ast.rs:76-90 | for every message, the fully recursing visitor fires exactly one event per node of the message's tree, in pre-order, and none for the `Message` wrapper |
| AstTrees.MessageWalk | parser/src/ast.rs:76-90 | on a message whose tree satisfies `Built`, the tree is sound and pre-order is source order: every node's span starts no later than it ends and lies inside the message's span, which is the root's span, and the nodes are met in the order their spans start |
| AstTrees.EmptyQuotedPatternNotBuilt | parser/src/ast.rs:97-106 | `Built` fails for a complex message whose body is an empty quoted pattern stored anywhere but at the dummy location, because the empty pattern's span is dummy..dummy |
| Tracing.Tracer.constructor | parser/src/ast.rs:76-90 | a new visitor has fired no callbacks |
| Tracing.Tracer.ApplyMessage | parser/src/ast.rs:76-82 | applying the visitor to a message appends exactly the inner node's events, none of its own |
| Tracing.Tracer.ApplyMessageToChildren | parser/src/ast.rs:84-89 | applying the visitor to a message's children appends exactly the inner node's children's events |
| Tracing.Tracer.ApplyPattern | parser/src/ast.rs:108-118 | appends exactly the `Pattern` node's events: its own callback, then its children's |
| Tracing.Tracer.ApplyPatternToChildren | parser/src/ast.rs:108-118 | appends exactly the events of the `Pattern` node's children in field order; the loop over each repeated field keeps the trace equal to the events of the elements visited so far |
| Tracing.Tracer.ApplyPatternPart | parser/src/ast.rs:38-48 | appends exactly the `PatternPart` node's events: its own callback, then its children's |
| Tracing.Tracer.ApplyPatternPartToChildren | parser/src/ast.rs:38-48 | appends exactly the events of the active variant's `Apply`, the wrapper's only child |
| Tracing.Tracer.ApplyText | parser/src/ast.rs:142-148 | appends exactly the `Text` node's events: its own callback, then its children's |
| Tracing.Tracer.ApplyTextToChildren | parser/src/ast.rs:142-148 | leaves the trace unchanged: a text run has no children, so `ApplyToChildren` is empty |
| Tracing.Tracer.ApplyEscape | parser/src/ast.rs:162-168 | appends exactly the `Escape` node's events: its own callback, then its children's |
| Tracing.Tracer.ApplyEscapeToChildren | parser/src/ast.rs:162-168 | leaves the trace unchanged: an escape has no children, so `ApplyToChildren` is empty |
| Tracing.Tracer.ApplyExpression | parser/src/ast.rs:38-48 | appends exactly the `Expression` node's events: its own callback, then its children's |
| Tracing.Tracer.ApplyExpressionToChildren | parser/src/ast.rs:38-48 | appends exactly the events of the active variant's `Apply`, the wrapper's only child |
| Tracing.Tracer.ApplyLiteralExpression | parser/src/ast.rs:193-207 | appends exactly the `LiteralExpression` node's events: its own callback, then its children's |
| Tracing.Tracer.ApplyLiteralExpressionToChildren | parser/src/ast.rs:193-207 | appends exactly the events of the `LiteralExpression` node's children in field order; the loop over each repeated field keeps the trace equal to the events of the elements visited so far |
| Tracing.Tracer.ApplyVariableExpression | parser/src/ast.rs:223-237 | appends exactly the `VariableExpression` node's events: its own callback, then its children's |
| Tracing.Tracer.ApplyVariableExpressionToChildren | parser/src/ast.rs:223-237 | appends exactly the events of the `VariableExpression` node's children in field order; the loop over each repeated field keeps the trace equal to the events of the elements visited so far |
| Tracing.Tracer.ApplyVariable | parser/src/ast.rs:251-257 | appends exactly the `Variable` node's events: its own callback, then its children's |
| Tracing.Tracer.ApplyVariableToChildren | parser/src/ast.rs:251-257 | leaves the trace unchanged: a variable has no children, so `ApplyToChildren` is empty |
| Tracing.Tracer.ApplyAnnotationExpression | parser/src/ast.rs:272-283 | appends exactly the `AnnotationExpression` node's events: its own callback, then its children's |
| Tracing.Tracer.ApplyAnnotationExpressionToChildren | parser/src/ast.rs:272-283 | appends exactly the events of the `AnnotationExpression` node's children in field order; the loop over each repeated field keeps the trace equal to the events of the elements visited so far |
| Tracing.Tracer.ApplyAnnotation | parser/src/ast.rs:38-48 | appends exactly the `Annotation` node's events: its own callback, then its children's |
| Tracing.Tracer.ApplyAnnotationToChildren | parser/src/ast.rs:38-48 | appends exactly the events of the active variant's `Apply`, the wrapper's only child |
| Tracing.Tracer.ApplyIdentifier | parser/src/ast.rs:313-319 | appends exactly the `Identifier` node's events: its own callback, then its children's |
| Tracing.Tracer.ApplyIdentifierToChildren | parser/src/ast.rs:313-319 | leaves the trace unchanged: an identifier has no children, so `ApplyToChildren` is empty |
| Tracing.Tracer.ApplyFunction | parser/src/ast.rs:339-350 | appends exactly the `Function` node's events: its own callback, then its children's |
| Tracing.Tracer.ApplyFunctionToChildren | parser/src/ast.rs:339-350 | appends exactly the events of the `Function` node's children in field order; the loop over each repeated field keeps the trace equal to the events of the elements visited so far |
| Tracing.Tracer.ApplyFnOrMarkupOption | parser/src/ast.rs:366-375 | appends exactly the `FnOrMarkupOption` node's events: its own callback, then its children's |
| Tracing.Tracer.ApplyFnOrMarkupOptionToChildren | parser/src/ast.rs:366-375 | appends the events of the option's key, then those of its value |
| Tracing.Tracer.ApplyAttribute | parser/src/ast.rs:390-401 | appends exactly the `Attribute` node's events: its own callback, then its children's |
| Tracing.Tracer.ApplyAttributeToChildren | parser/src/ast.rs:390-401 | appends the events of the attribute's key, then those of its value only when a value is present |
| Tracing.Tracer.ApplyLiteralOrVariable | parser/src/ast.rs:38-48 | appends exactly the `LiteralOrVariable` node's events: its own callback, then its children's |
| Tracing.Tracer.ApplyLiteralOrVariableToChildren | parser/src/ast.rs:38-48 | appends exactly the events of the active variant's `Apply`, the wrapper's only child |
| Tracing.Tracer.ApplyPrivateUseAnnotation | parser/src/ast.rs:429-439 | appends exactly the `PrivateUseAnnotation` node's events: its own callback, then its children's |
| Tracing.Tracer.ApplyPrivateUseAnnotationToChildren | parser/src/ast.rs:429-439 | appends exactly the events of the `PrivateUseAnnotation` node's children in field order; the loop over each repeated field keeps the trace equal to the events of the elements visited so far |
| Tracing.Tracer.ApplyReservedAnnotation | parser/src/ast.rs:459-469 | appends exactly the `ReservedAnnotation` node's events: its own callback, then its children's |
| Tracing.Tracer.ApplyReservedAnnotationToChildren | parser/src/ast.rs:459-469 | appends exactly the events of the `ReservedAnnotation` node's children in field order; the loop over each repeated field keeps the trace equal to the events of the elements visited so far |
| Tracing.Tracer.ApplyReservedBodyPart | parser/src/ast.rs:38-48 | appends exactly the `ReservedBodyPart` node's events: its own callback, then its children's |
| Tracing.Tracer.ApplyReservedBodyPartToChildren | parser/src/ast.rs:38-48 | appends exactly the events of the active variant's `Apply`, the wrapper's only child |
| Tracing.Tracer.ApplyLiteral | parser/src/ast.rs:38-48 | appends exactly the `Literal` node's events: its own callback, then its children's |
| Tracing.Tracer.ApplyLiteralToChildren | parser/src/ast.rs:38-48 | appends exactly the events of the active variant's `Apply`, the wrapper's only child |
| Tracing.Tracer.ApplyQuoted | parser/src/ast.rs:501-511 | appends exactly the `Quoted` node's events: its own callback, then its children's |
| Tracing.Tracer.ApplyQuotedToChildren | parser/src/ast.rs:501-511 | appends exactly the events of the `Quoted` node's children in field order; the loop over each repeated field keeps the trace equal to the events of the elements visited so far |
| Tracing.Tracer.ApplyQuotedPart | parser/src/ast.rs:38-48 | appends exactly the `QuotedPart` node's events: its own callback, then its children's |
| Tracing.Tracer.ApplyQuotedPartToChildren | parser/src/ast.rs:38-48 | appends exactly the events of the active variant's `Apply`, the wrapper's only child |
| Tracing.Tracer.ApplyNumber | parser/src/ast.rs:544-550 | appends exactly the `Number` node's events: its own callback, then its children's |
| Tracing.Tracer.ApplyNumberToChildren | parser/src/ast.rs:544-550 | leaves the trace unchanged: a number literal has no children, so `ApplyToChildren` is empty |
| Tracing.Tracer.ApplyMarkup | parser/src/ast.rs:638-652 | appends exactly the `Markup` node's events: its own callback, then its children's |
| Tracing.Tracer.ApplyMarkupToChildren | parser/src/ast.rs:638-652 | appends exactly the events of the `Markup` node's children in field order; the loop over each repeated field keeps the trace equal to the events of the elements visited so far |
| Tracing.Tracer.ApplyComplexMessage | parser/src/ast.rs:676-687 | appends exactly the `ComplexMessage` node's events: its own callback, then its children's |
| Tracing.Tracer.ApplyComplexMessageToChildren | parser/src/ast.rs:676-687 | appends exactly the events of the `ComplexMessage` node's children in field order; the loop over each repeated field keeps the trace equal to the events of the elements visited so far |
| Tracing.Tracer.ApplyDeclaration | parser/src/ast.rs:38-48 | appends exactly the `Declaration` node's events: its own callback, then its children's |
| Tracing.Tracer.ApplyDeclarationToChildren | parser/src/ast.rs:38-48 | appends exactly the events of the active variant's `Apply`, the wrapper's only child |
| Tracing.Tracer.ApplyInputDeclaration | parser/src/ast.rs:712-720 | appends exactly the `InputDeclaration` node's events: its own callback, then its children's |
| Tracing.Tracer.ApplyInputDeclarationToChildren | parser/src/ast.rs:712-720 | appends exactly the events of the declared variable expression |
| Tracing.Tracer.ApplyLocalDeclaration | parser/src/ast.rs:737-746 | appends exactly the `LocalDeclaration` node's events: its own callback, then its children's |
| Tracing.Tracer.ApplyLocalDeclarationToChildren | parser/src/ast.rs:737-746 | appends the events of the declared variable, then those of its expression |
| Tracing.Tracer.ApplyReservedStatement | parser/src/ast.rs:774-787 | appends exactly the `ReservedStatement` node's events: its own callback, then its children's |
| Tracing.Tracer.ApplyReservedStatementToChildren | parser/src/ast.rs:774-787 | appends exactly the events of the `ReservedStatement` node's children in field order; the loop over each repeated field keeps the trace equal to the events of the elements visited so far |
| Tracing.Tracer.ApplyComplexMessageBody | parser/src/ast.rs:38-48 | appends exactly the `ComplexMessageBody` node's events: its own callback, then its children's |
| Tracing.Tracer.ApplyComplexMessageBodyToChildren | parser/src/ast.rs:38-48 | appends exactly the events of the active variant's `Apply`, the wrapper's only child |
| Tracing.Tracer.ApplyQuotedPattern | parser/src/ast.rs:809-817 | appends exactly the `QuotedPattern` node's events: its own callback, then its children's |
| Tracing.Tracer.ApplyQuotedPatternToChildren | parser/src/ast.rs:809-817 | appends exactly the events of the quoted pattern's inner pattern |
| Tracing.Tracer.ApplyMatcher | parser/src/ast.rs:844-857 | appends exactly the `Matcher` node's events: its own callback, then its children's |
| Tracing.Tracer.ApplyMatcherToChildren | parser/src/ast.rs:844-857 | appends exactly the events of the `Matcher` node's children in field order; the loop over each repeated field keeps the trace equal to the events of the elements visited so far |
| Tracing.Tracer.ApplyVariant | parser/src/ast.rs:877-888 | appends exactly the `Variant` node's events: its own callback, then its children's |
| Tracing.Tracer.ApplyVariantToChildren | parser/src/ast.rs:877-888 | appends exactly the events of the `Variant` node's children in field order; the loop over each repeated field keeps the trace equal to the events of the elements visited so far |
| Tracing.Tracer.ApplyKey | parser/src/ast.rs:38-48 | appends exactly the `Key` node's events: its own callback, then its children's |
| Tracing.Tracer.ApplyKeyToChildren | parser/src/ast.rs:38-48 | appends exactly the events of the active variant's `Apply`, the wrapper's only child |
| Tracing.Tracer.ApplyStar | parser/src/ast.rs:909-915 | appends exactly the `Star` node's events: its own callback, then its children's |
| Tracing.Tracer.ApplyStarToChildren | parser/src/ast.rs:909-915 | leaves the trace unchanged: the catch-all key `*` has no children, so `ApplyToChildren` is empty |

## Left out

- The `Debug` implementations (lines 22-28, 58-65) produce formatting output only.
- The `ast_enum!` macro is code generation. Its expansion is modelled: one datatype per enum, with span and visitor dispatch.
- The internals of `Location`, `Span`, `LengthShort` and `Location::dummy()` are not part of this model.
  - Locations are unbounded `nat` offsets, so 32-bit overflow of a location is not modelled.
  - The dummy location is an arbitrary constant.
  - Character and string width is an abstract function.
- `crate::visitor::Visit` is not part of this model. Its default method bodies are replaced by a visitor that records each callback and always recurses into the children. A visitor that overrides a callback and skips the children is not modelled.
- Lifetimes, borrowing and `Clone` are ownership mechanics with no behaviour to verify.
- The Unicode width or UTF-8/UTF-16 encoding of `escaped_char`, sigils and content is not fixed. Width stays the abstract `charWidth`.
- `Ast.Number.Slice` indexes `raw` by character position, while the source slices the string by byte offsets; the two agree because a number literal is ASCII text, one byte per character. Panics on a range that does not fall on a character boundary are not modelled, and an out-of-range slice, which panics in the source, is excluded by its precondition. The `Number` accessors inherit that precondition.
- `AstTrees.MessageWalk` requires `Built`, so its containment and source-order conclusions do not cover every message. `Built` asks every child to lie inside a stored span and siblings to follow one another in source order. An empty pattern takes the span dummy..dummy (lines 97-106), so any quoted pattern `{{}}` stored away from the dummy location breaks `Built`; `AstTrees.EmptyQuotedPatternNotBuilt` shows one such message. The dispatch conclusions hold for every message (`AstTrees.MessageDispatch`).
- `Numbers.NumberLayout`, `Numbers.IntegralLayout`, `Numbers.FractionLayout` and `Numbers.ExponentLayout` hold only under `AsciiUnit`, since they compare widths of `'-'`, `'.'` and `'e'` with lengths in characters.
- `Numbers.AssembleRoundTrip`, `Numbers.LaidRoundTrip`, `Numbers.AbsoluteRoundTripAtZero` and `Numbers.NumberEndsAtLastPart` also assume `AsciiUnit`, for the same reason. `Numbers.AccessorsAtStartZero` assumes only that the literal starts at location 0.
- `Ast.StarWidth`, `Ast.EscapeWidth` and `Ast.IdentifierWidth` assume `AsciiUnit` to fix the width of `*`, `\` and `:`. `Ast.TextWidth` and `Ast.NumberWidth` also assume the text is ASCII; for other text the span is the abstract width of the text.

## Findings

| source | as written | input that shows it | evidently intended | confidence | as-written member | corrected member |
|---|---|---|---|---|---|---|
| parser/src/ast.rs:553-555 | `slice` indexes the literal's own text `raw` with the span's absolute source offsets, although `raw` starts at the literal's `start` (lines 538-542) | the literal `1.5` at location 1: `integral_part` returns `.`, and the fractional span 3..4 lies past the end of the three-character `raw`, so `fractional_part` panics | offsets counted from `self.start`, so the parts are `1` and `5` | not executed | Ast.Number.Slice, shown by Numbers.AbsoluteSliceMisreads | Numbers.RelativeSlice, with Numbers.AssembleRoundTrip and Numbers.LaidRoundTrip |
