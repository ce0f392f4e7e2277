/** The node catalog of a MessageFormat 2 message, with the two capabilities
    every node has: `Span` (the source range it occupies) and the visitor
    dispatch pair `Apply` / `ApplyToChildren`.

    Every Rust struct of the AST is a datatype here and every enum produced
    by the sum-type macro is a datatype with one constructor per variant.
    Text a node borrows from the source is held as a `string`.

    The visitor is modelled as the visitor that always recurses: each of its
    callbacks records one `Event` naming itself, then applies the visitor to
    the node's children.  `Apply()` is then the sequence of events that
    `apply_visitor` produces on such a visitor, and `ApplyToChildren()` the
    sequence that `apply_visitor_to_children` produces.  The class in
    tracing.dfy runs the same dispatch step by step. */
module Ast {
  import opened Wrappers
  import opened Locations

  /** One event per callback of the visitor. */
  datatype Event =
    | VisitPattern | VisitPatternPart | VisitText | VisitEscape
    | VisitExpression | VisitLiteralExpression | VisitVariableExpression
    | VisitVariable | VisitAnnotationExpression | VisitAnnotation
    | VisitIdentifier | VisitFunction | VisitFnOrMarkupOption | VisitAttribute
    | VisitLiteralOrVariable | VisitPrivateUseAnnotation
    | VisitReservedAnnotation | VisitReservedBodyPart | VisitLiteral
    | VisitQuoted | VisitQuotedPart | VisitNumber | VisitMarkup
    | VisitComplexMessage | VisitDeclaration | VisitInputDeclaration
    | VisitLocalDeclaration | VisitReservedStatement
    | VisitComplexMessageBody | VisitQuotedPattern | VisitMatcher
    | VisitVariant | VisitKey | VisitStar

  /** The root: the only wrapper that has no callback of its own. */
  datatype Message = Simple(pattern: Pattern) | Complex(complex: ComplexMessage) {
    function Span(m: Metric): Span {
      match this
      case Simple(p) => p.Span(m)
      case Complex(c) => c.Span(m)
    }
    function Apply(): seq<Event> {
      match this
      case Simple(p) => p.Apply()
      case Complex(c) => c.Apply()
    }
    function ApplyToChildren(): seq<Event> {
      match this
      case Simple(p) => p.ApplyToChildren()
      case Complex(c) => c.ApplyToChildren()
    }
  }

  datatype Pattern = Pattern(parts: seq<PatternPart>) {
    /** First part's start to last part's end; with no parts, the dummy
        location on both sides. */
    function Span(m: Metric): Span {
      if |parts| > 0 then Locations.Span(parts[0].Span(m).start, parts[|parts| - 1].Span(m).end)
      else Locations.Span(m.dummy, m.dummy)
    }
    function Apply(): seq<Event> decreases this, 1 { [VisitPattern] + ApplyToChildren() }
    function ApplyToChildren(): seq<Event> decreases this, 0 { ApplyPatternParts(parts) }
  }

  datatype PatternPart =
    | TextPart(text: Text)
    | EscapePart(escape: Escape)
    | ExpressionPart(expression: Expression)
    | MarkupPart(markup: Markup)
  {
    function Span(m: Metric): Span {
      match this
      case TextPart(x) => x.Span(m)
      case EscapePart(x) => x.Span(m)
      case ExpressionPart(x) => x.Span(m)
      case MarkupPart(x) => x.Span(m)
    }
    function Apply(): seq<Event> decreases this, 1 { [VisitPatternPart] + ApplyToChildren() }
    function ApplyToChildren(): seq<Event> decreases this, 0 {
      match this
      case TextPart(x) => x.Apply()
      case EscapePart(x) => x.Apply()
      case ExpressionPart(x) => x.Apply()
      case MarkupPart(x) => x.Apply()
    }
  }

  /** A run of literal text. */
  datatype Text = Text(start: Location, content: string) {
    function Span(m: Metric): (r: Span)
      ensures r.start == start && r.end == start + m.StrWidth(content)
    {
      Locations.Span(start, m.AdvanceStr(start, content))
    }
    function Apply(): seq<Event> decreases this, 1 { [VisitText] + ApplyToChildren() }
    function ApplyToChildren(): seq<Event> decreases this, 0 { [] }
  }

  /** A backslash followed by the escaped character. */
  datatype Escape = Escape(start: Location, escapedChar: char) {
    /** The source text of the escape. */
    function Source(): string { ['\\', escapedChar] }

    function Span(m: Metric): (r: Span)
      ensures r.start == start && r.end == start + m.StrWidth(Source())
    {
      StrWidthAppend(m, ['\\'], [escapedChar]);
      assert Source() == ['\\'] + [escapedChar];
      Locations.Span(start, m.AdvanceChar(m.AdvanceChar(start, '\\'), escapedChar))
    }
    function Apply(): seq<Event> decreases this, 1 { [VisitEscape] + ApplyToChildren() }
    function ApplyToChildren(): seq<Event> decreases this, 0 { [] }
  }

  datatype Expression =
    | LiteralExpr(literalExpression: LiteralExpression)
    | VariableExpr(variableExpression: VariableExpression)
    | AnnotationExpr(annotationExpression: AnnotationExpression)
  {
    function Span(m: Metric): Span {
      match this
      case LiteralExpr(x) => x.Span(m)
      case VariableExpr(x) => x.Span(m)
      case AnnotationExpr(x) => x.Span(m)
    }
    function Apply(): seq<Event> decreases this, 1 { [VisitExpression] + ApplyToChildren() }
    function ApplyToChildren(): seq<Event> decreases this, 0 {
      match this
      case LiteralExpr(x) => x.Apply()
      case VariableExpr(x) => x.Apply()
      case AnnotationExpr(x) => x.Apply()
    }
  }

  datatype LiteralExpression = LiteralExpression(
    span: Span, literal: Literal, annotation: Option<Annotation>, attributes: seq<Attribute>)
  {
    function Span(m: Metric): Span { span }
    function Apply(): seq<Event> decreases this, 1 { [VisitLiteralExpression] + ApplyToChildren() }
    function ApplyToChildren(): seq<Event> decreases this, 0 {
      literal.Apply() + ApplyOptionalAnnotation(annotation) + ApplyAttributes(attributes)
    }
  }

  datatype VariableExpression = VariableExpression(
    span: Span, variable: Variable, annotation: Option<Annotation>, attributes: seq<Attribute>)
  {
    function Span(m: Metric): Span { span }
    function Apply(): seq<Event> decreases this, 1 { [VisitVariableExpression] + ApplyToChildren() }
    function ApplyToChildren(): seq<Event> decreases this, 0 {
      variable.Apply() + ApplyOptionalAnnotation(annotation) + ApplyAttributes(attributes)
    }
  }

  /** A variable reference; its span is stored, not derived from the name. */
  datatype Variable = Variable(span: Span, name: string) {
    function Span(m: Metric): Span { span }
    function Apply(): seq<Event> decreases this, 1 { [VisitVariable] + ApplyToChildren() }
    function ApplyToChildren(): seq<Event> decreases this, 0 { [] }
  }

  datatype AnnotationExpression = AnnotationExpression(
    span: Span, annotation: Annotation, attributes: seq<Attribute>)
  {
    function Span(m: Metric): Span { span }
    function Apply(): seq<Event> decreases this, 1 { [VisitAnnotationExpression] + ApplyToChildren() }
    function ApplyToChildren(): seq<Event> decreases this, 0 {
      annotation.Apply() + ApplyAttributes(attributes)
    }
  }

  datatype Annotation =
    | FunctionAnnotation(fn: Function)
    | PrivateUse(privateUse: PrivateUseAnnotation)
    | Reserved(reserved: ReservedAnnotation)
  {
    function Span(m: Metric): Span {
      match this
      case FunctionAnnotation(x) => x.Span(m)
      case PrivateUse(x) => x.Span(m)
      case Reserved(x) => x.Span(m)
    }
    function Apply(): seq<Event> decreases this, 1 { [VisitAnnotation] + ApplyToChildren() }
    function ApplyToChildren(): seq<Event> decreases this, 0 {
      match this
      case FunctionAnnotation(x) => x.Apply()
      case PrivateUse(x) => x.Apply()
      case Reserved(x) => x.Apply()
    }
  }

  /** A name with an optional namespace, written `namespace:name`. */
  datatype Identifier = Identifier(start: Location, namespace: Option<string>, name: string) {
    /** The source text of the identifier. */
    function Source(): string {
      match namespace
      case Some(ns) => ns + ":" + name
      case None => name
    }

    /** The span covers exactly the identifier's source text. */
    function Span(m: Metric): (r: Span)
      ensures r.start == start && r.end == start + m.StrWidth(Source())
    {
      var afterNamespace := match namespace
        case Some(ns) => m.AdvanceChar(m.AdvanceStr(start, ns), ':')
        case None => start;
      assert m.AdvanceStr(afterNamespace, name) == start + m.StrWidth(Source()) by {
        if namespace.Some? {
          StrWidthAppend(m, namespace.value, ":");
          StrWidthAppend(m, namespace.value + ":", name);
        }
      }
      Locations.Span(start, m.AdvanceStr(afterNamespace, name))
    }
    function Apply(): seq<Event> decreases this, 1 { [VisitIdentifier] + ApplyToChildren() }
    function ApplyToChildren(): seq<Event> decreases this, 0 { [] }
  }

  datatype Function = Function(start: Location, id: Identifier, options: seq<FnOrMarkupOption>) {
    /** From the stored start to the last option's end, or the id's end. */
    function Span(m: Metric): Span {
      Locations.Span(start, if |options| > 0 then options[|options| - 1].Span(m).end else id.Span(m).end)
    }
    function Apply(): seq<Event> decreases this, 1 { [VisitFunction] + ApplyToChildren() }
    function ApplyToChildren(): seq<Event> decreases this, 0 {
      id.Apply() + ApplyOptions(options)
    }
  }

  /** A `key=value` option of a function or of markup. */
  datatype FnOrMarkupOption = FnOrMarkupOption(key: Identifier, value: LiteralOrVariable) {
    function Span(m: Metric): Span {
      Locations.Span(key.Span(m).start, value.Span(m).end)
    }
    function Apply(): seq<Event> decreases this, 1 { [VisitFnOrMarkupOption] + ApplyToChildren() }
    function ApplyToChildren(): seq<Event> decreases this, 0 {
      key.Apply() + value.Apply()
    }
  }

  datatype Attribute = Attribute(span: Span, key: Identifier, value: Option<LiteralOrVariable>) {
    function Span(m: Metric): Span { span }
    function Apply(): seq<Event> decreases this, 1 { [VisitAttribute] + ApplyToChildren() }
    function ApplyToChildren(): seq<Event> decreases this, 0 {
      key.Apply() + (match value case Some(v) => v.Apply() case None => [])
    }
  }

  datatype LiteralOrVariable = LiteralValue(literal: Literal) | VariableValue(variable: Variable) {
    function Span(m: Metric): Span {
      match this
      case LiteralValue(x) => x.Span(m)
      case VariableValue(x) => x.Span(m)
    }
    function Apply(): seq<Event> decreases this, 1 { [VisitLiteralOrVariable] + ApplyToChildren() }
    function ApplyToChildren(): seq<Event> decreases this, 0 {
      match this
      case LiteralValue(x) => x.Apply()
      case VariableValue(x) => x.Apply()
    }
  }

  datatype PrivateUseAnnotation = PrivateUseAnnotation(start: Location, sigil: char, body: seq<ReservedBodyPart>) {
    /** From the stored start to the last body part's end, or past the sigil. */
    function Span(m: Metric): Span {
      Locations.Span(start, if |body| > 0 then body[|body| - 1].Span(m).end else m.AdvanceChar(start, sigil))
    }
    function Apply(): seq<Event> decreases this, 1 { [VisitPrivateUseAnnotation] + ApplyToChildren() }
    function ApplyToChildren(): seq<Event> decreases this, 0 { ApplyBodyParts(body) }
  }

  datatype ReservedAnnotation = ReservedAnnotation(start: Location, sigil: char, body: seq<ReservedBodyPart>) {
    /** From the stored start to the last body part's end, or past the sigil. */
    function Span(m: Metric): Span {
      Locations.Span(start, if |body| > 0 then body[|body| - 1].Span(m).end else m.AdvanceChar(start, sigil))
    }
    function Apply(): seq<Event> decreases this, 1 { [VisitReservedAnnotation] + ApplyToChildren() }
    function ApplyToChildren(): seq<Event> decreases this, 0 { ApplyBodyParts(body) }
  }

  datatype ReservedBodyPart = BodyText(text: Text) | BodyEscape(escape: Escape) | BodyQuoted(quoted: Quoted) {
    function Span(m: Metric): Span {
      match this
      case BodyText(x) => x.Span(m)
      case BodyEscape(x) => x.Span(m)
      case BodyQuoted(x) => x.Span(m)
    }
    function Apply(): seq<Event> decreases this, 1 { [VisitReservedBodyPart] + ApplyToChildren() }
    function ApplyToChildren(): seq<Event> decreases this, 0 {
      match this
      case BodyText(x) => x.Apply()
      case BodyEscape(x) => x.Apply()
      case BodyQuoted(x) => x.Apply()
    }
  }

  datatype Literal = QuotedLiteral(quoted: Quoted) | TextLiteral(text: Text) | NumberLiteral(number: Number) {
    function Span(m: Metric): Span {
      match this
      case QuotedLiteral(x) => x.Span(m)
      case TextLiteral(x) => x.Span(m)
      case NumberLiteral(x) => x.Span(m)
    }
    function Apply(): seq<Event> decreases this, 1 { [VisitLiteral] + ApplyToChildren() }
    function ApplyToChildren(): seq<Event> decreases this, 0 {
      match this
      case QuotedLiteral(x) => x.Apply()
      case TextLiteral(x) => x.Apply()
      case NumberLiteral(x) => x.Apply()
    }
  }

  datatype Quoted = Quoted(span: Span, parts: seq<QuotedPart>) {
    function Span(m: Metric): Span { span }
    function Apply(): seq<Event> decreases this, 1 { [VisitQuoted] + ApplyToChildren() }
    function ApplyToChildren(): seq<Event> decreases this, 0 { ApplyQuotedParts(parts) }
  }

  datatype QuotedPart = QuotedText(text: Text) | QuotedEscape(escape: Escape) {
    function Span(m: Metric): Span {
      match this
      case QuotedText(x) => x.Span(m)
      case QuotedEscape(x) => x.Span(m)
    }
    function Apply(): seq<Event> decreases this, 1 { [VisitQuotedPart] + ApplyToChildren() }
    function ApplyToChildren(): seq<Event> decreases this, 0 {
      match this
      case QuotedText(x) => x.Apply()
      case QuotedEscape(x) => x.Apply()
    }
  }

  /** The sign written after the exponent marker; `None` when there is none. */
  datatype ExponentSign = Plus | Minus | None

  /** A number literal: its raw text and where its components lie in it.
      The numeric value is not stored. */
  datatype Number = Number(
    start: Location,
    raw: string,
    isNegative: bool,
    integralLen: nat,
    fractionalLen: Option<nat>,
    exponentLen: Option<(ExponentSign, nat)>)
  {
    function Span(m: Metric): (r: Span)
      ensures r.start == start && r.end == start + m.StrWidth(raw)
    {
      Locations.Span(start, m.AdvanceStr(start, raw))
    }
    function Apply(): seq<Event> decreases this, 1 { [VisitNumber] + ApplyToChildren() }
    function ApplyToChildren(): seq<Event> decreases this, 0 { [] }

    /** The text of `raw` at the span's offsets, taken as indices into `raw`
        itself, not relative to `start`; out of range is a panic in the
        source, hence the precondition. */
    function Slice(span: Span): (r: string)
      requires span.start <= span.end <= |raw|
      ensures |r| == span.end - span.start
      ensures forall i :: 0 <= i < |r| ==> r[i] == raw[span.start + i]
    {
      raw[span.start..span.end]
    }

    function IntegralStart(m: Metric): Location {
      if isNegative then m.AdvanceChar(start, '-') else start
    }

    function IntegralEnd(m: Metric): Location {
      IntegralStart(m) + integralLen
    }

    function IntegralSpan(m: Metric): Span {
      Locations.Span(IntegralStart(m), IntegralEnd(m))
    }

    function IntegralPart(m: Metric): string
      requires IntegralEnd(m) <= |raw|
    {
      Slice(IntegralSpan(m))
    }

    /** Past the integral part and the decimal point, `fractionalLen` long. */
    function FractionalSpan(m: Metric): Option<Span> {
      match fractionalLen
      case Some(len) =>
        var s := m.AdvanceChar(IntegralEnd(m), '.');
        Some(Locations.Span(s, s + len))
      case None => Option.None
    }

    function FractionalPart(m: Metric): Option<string>
      requires FractionalSpan(m).Some? ==> FractionalSpan(m).value.end <= |raw|
    {
      match FractionalSpan(m)
      case Some(span) => Some(Slice(span))
      case None => Option.None
    }

    /** Past the integral part, the fraction with its point if there is one,
        the exponent marker, and one more character unless the sign is
        `None`; `exponentLen.1` long. */
    function ExponentSpan(m: Metric): Option<Span> {
      match exponentLen
      case Some((sign, len)) =>
        var afterFraction := match fractionalLen
          case Some(f) => m.AdvanceChar(IntegralEnd(m), '.') + f
          case None => IntegralEnd(m);
        var afterMarker := m.AdvanceChar(afterFraction, 'e');
        var s := if sign != ExponentSign.None then m.AdvanceChar(afterMarker, '-') else afterMarker;
        Some(Locations.Span(s, s + len))
      case None => Option.None
    }

    function ExponentPart(m: Metric): Option<(ExponentSign, string)>
      requires ExponentSpan(m).Some? ==> ExponentSpan(m).value.end <= |raw|
    {
      match ExponentSpan(m)
      case Some(span) => Some((exponentLen.value.0, Slice(span)))
      case None => Option.None
    }
  }

  datatype MarkupKind = Open | Standalone | Close

  datatype Markup = Markup(
    span: Span, kind: MarkupKind, id: Identifier, options: seq<FnOrMarkupOption>, attributes: seq<Attribute>)
  {
    function Span(m: Metric): Span { span }
    function Apply(): seq<Event> decreases this, 1 { [VisitMarkup] + ApplyToChildren() }
    function ApplyToChildren(): seq<Event> decreases this, 0 {
      id.Apply() + ApplyOptions(options) + ApplyAttributes(attributes)
    }
  }

  datatype ComplexMessage = ComplexMessage(declarations: seq<Declaration>, body: ComplexMessageBody) {
    /** The smaller of the first declaration's start and the body's start,
        to the larger of the last declaration's end and the body's end;
        the body's span when there are no declarations. */
    function Span(m: Metric): Span {
      var b := body.Span(m);
      if |declarations| > 0 then
        var first := declarations[0].Span(m);
        var last := declarations[|declarations| - 1].Span(m);
        Locations.Span(Min(first.start, b.start), Max(last.end, b.end))
      else
        b
    }
    function Apply(): seq<Event> decreases this, 1 { [VisitComplexMessage] + ApplyToChildren() }
    function ApplyToChildren(): seq<Event> decreases this, 0 {
      ApplyDeclarations(declarations) + body.Apply()
    }
  }

  datatype Declaration =
    | InputDecl(input: InputDeclaration)
    | LocalDecl(local: LocalDeclaration)
    | ReservedDecl(statement: ReservedStatement)
  {
    function Span(m: Metric): Span {
      match this
      case InputDecl(x) => x.Span(m)
      case LocalDecl(x) => x.Span(m)
      case ReservedDecl(x) => x.Span(m)
    }
    function Apply(): seq<Event> decreases this, 1 { [VisitDeclaration] + ApplyToChildren() }
    function ApplyToChildren(): seq<Event> decreases this, 0 {
      match this
      case InputDecl(x) => x.Apply()
      case LocalDecl(x) => x.Apply()
      case ReservedDecl(x) => x.Apply()
    }
  }

  datatype InputDeclaration = InputDeclaration(start: Location, expression: VariableExpression) {
    function Span(m: Metric): Span { Locations.Span(start, expression.Span(m).end) }
    function Apply(): seq<Event> decreases this, 1 { [VisitInputDeclaration] + ApplyToChildren() }
    function ApplyToChildren(): seq<Event> decreases this, 0 { expression.Apply() }
  }

  datatype LocalDeclaration = LocalDeclaration(start: Location, variable: Variable, expression: Expression) {
    function Span(m: Metric): Span { Locations.Span(start, expression.Span(m).end) }
    function Apply(): seq<Event> decreases this, 1 { [VisitLocalDeclaration] + ApplyToChildren() }
    function ApplyToChildren(): seq<Event> decreases this, 0 { variable.Apply() + expression.Apply() }
  }

  datatype ReservedStatement = ReservedStatement(
    start: Location, name: string, body: seq<ReservedBodyPart>, expressions: seq<Expression>)
  {
    /** From the stored start to the last expression's end, else the last
        body part's end, else past the dot and the name. */
    function Span(m: Metric): Span {
      var end :=
        if |expressions| > 0 then expressions[|expressions| - 1].Span(m).end
        else if |body| > 0 then body[|body| - 1].Span(m).end
        else m.AdvanceStr(m.AdvanceChar(start, '.'), name);
      Locations.Span(start, end)
    }
    function Apply(): seq<Event> decreases this, 1 { [VisitReservedStatement] + ApplyToChildren() }
    function ApplyToChildren(): seq<Event> decreases this, 0 {
      ApplyBodyParts(body) + ApplyExpressions(expressions)
    }
  }

  datatype ComplexMessageBody = QuotedPatternBody(quotedPattern: QuotedPattern) | MatcherBody(matcher: Matcher) {
    function Span(m: Metric): Span {
      match this
      case QuotedPatternBody(x) => x.Span(m)
      case MatcherBody(x) => x.Span(m)
    }
    function Apply(): seq<Event> decreases this, 1 { [VisitComplexMessageBody] + ApplyToChildren() }
    function ApplyToChildren(): seq<Event> decreases this, 0 {
      match this
      case QuotedPatternBody(x) => x.Apply()
      case MatcherBody(x) => x.Apply()
    }
  }

  datatype QuotedPattern = QuotedPattern(span: Span, pattern: Pattern) {
    function Span(m: Metric): Span { span }
    function Apply(): seq<Event> decreases this, 1 { [VisitQuotedPattern] + ApplyToChildren() }
    function ApplyToChildren(): seq<Event> decreases this, 0 { pattern.Apply() }
  }

  datatype Matcher = Matcher(start: Location, selectors: seq<Expression>, variants: seq<Variant>) {
    /** From the stored start to the last variant's end, else the last
        selector's end, else past the `.match` keyword. */
    function Span(m: Metric): Span {
      var end :=
        if |variants| > 0 then variants[|variants| - 1].Span(m).end
        else if |selectors| > 0 then selectors[|selectors| - 1].Span(m).end
        else m.AdvanceStr(start, ".match");
      Locations.Span(start, end)
    }
    function Apply(): seq<Event> decreases this, 1 { [VisitMatcher] + ApplyToChildren() }
    function ApplyToChildren(): seq<Event> decreases this, 0 {
      ApplyExpressions(selectors) + ApplyVariants(variants)
    }
  }

  datatype Variant = Variant(keys: seq<Key>, pattern: QuotedPattern) {
    /** From the first key's start, or the pattern's start, to the pattern's end. */
    function Span(m: Metric): Span {
      var start := if |keys| > 0 then keys[0].Span(m).start else pattern.Span(m).start;
      Locations.Span(start, pattern.Span(m).end)
    }
    function Apply(): seq<Event> decreases this, 1 { [VisitVariant] + ApplyToChildren() }
    function ApplyToChildren(): seq<Event> decreases this, 0 {
      ApplyKeys(keys) + pattern.Apply()
    }
  }

  datatype Key = LiteralKey(literal: Literal) | StarKey(star: Star) {
    function Span(m: Metric): Span {
      match this
      case LiteralKey(x) => x.Span(m)
      case StarKey(x) => x.Span(m)
    }
    function Apply(): seq<Event> decreases this, 1 { [VisitKey] + ApplyToChildren() }
    function ApplyToChildren(): seq<Event> decreases this, 0 {
      match this
      case LiteralKey(x) => x.Apply()
      case StarKey(x) => x.Apply()
    }
  }

  /** The wildcard key `*`. */
  datatype Star = Star(start: Location) {
    function Span(m: Metric): (r: Span)
      ensures r.start == start && r.end == start + m.StrWidth("*")
    {
      Locations.Span(start, m.AdvanceChar(start, '*'))
    }
    function Apply(): seq<Event> decreases this, 1 { [VisitStar] + ApplyToChildren() }
    function ApplyToChildren(): seq<Event> decreases this, 0 { [] }
  }

  // The `for` loops of the dispatch: the events of applying the visitor to
  // each element of a field, in order.  Each is written from the back so that
  // one loop step appends one element's events.

  function ApplyPatternParts(s: seq<PatternPart>): seq<Event> {
    if s == [] then [] else ApplyPatternParts(s[..|s| - 1]) + s[|s| - 1].Apply()
  }

  function ApplyAttributes(s: seq<Attribute>): seq<Event> {
    if s == [] then [] else ApplyAttributes(s[..|s| - 1]) + s[|s| - 1].Apply()
  }

  function ApplyOptions(s: seq<FnOrMarkupOption>): seq<Event> {
    if s == [] then [] else ApplyOptions(s[..|s| - 1]) + s[|s| - 1].Apply()
  }

  function ApplyBodyParts(s: seq<ReservedBodyPart>): seq<Event> {
    if s == [] then [] else ApplyBodyParts(s[..|s| - 1]) + s[|s| - 1].Apply()
  }

  function ApplyQuotedParts(s: seq<QuotedPart>): seq<Event> {
    if s == [] then [] else ApplyQuotedParts(s[..|s| - 1]) + s[|s| - 1].Apply()
  }

  function ApplyDeclarations(s: seq<Declaration>): seq<Event> {
    if s == [] then [] else ApplyDeclarations(s[..|s| - 1]) + s[|s| - 1].Apply()
  }

  function ApplyExpressions(s: seq<Expression>): seq<Event> {
    if s == [] then [] else ApplyExpressions(s[..|s| - 1]) + s[|s| - 1].Apply()
  }

  function ApplyVariants(s: seq<Variant>): seq<Event> {
    if s == [] then [] else ApplyVariants(s[..|s| - 1]) + s[|s| - 1].Apply()
  }

  function ApplyKeys(s: seq<Key>): seq<Event> {
    if s == [] then [] else ApplyKeys(s[..|s| - 1]) + s[|s| - 1].Apply()
  }

  /** An optional annotation is visited only when present. */
  function ApplyOptionalAnnotation(a: Option<Annotation>): seq<Event> {
    match a
    case Some(x) => x.Apply()
    case None => []
  }

  // Leaf widths, when the ASCII punctuation among them is one unit wide.

  /** A star is one unit wide. */
  lemma StarWidth(m: Metric, x: Star)
    requires m.AsciiUnit()
    ensures x.Span(m) == Locations.Span(x.start, x.start + 1)
  {
    assert m.charWidth('*') == 1;
  }

  /** An escape is one unit for the backslash and then the escaped
      character's width. */
  lemma EscapeWidth(m: Metric, x: Escape)
    requires m.AsciiUnit()
    ensures x.Span(m) == Locations.Span(x.start, x.start + 1 + m.charWidth(x.escapedChar))
  {
    assert m.charWidth('\\') == 1;
    assert x.Source()[1..] == [x.escapedChar];
  }

  /** An identifier covers its namespace and a one-unit colon only when it
      has a namespace, and then its name. */
  lemma IdentifierWidth(m: Metric, x: Identifier)
    requires m.AsciiUnit()
    ensures x.Span(m).start == x.start
    ensures x.Span(m).end == x.start + m.StrWidth(x.name) +
      match x.namespace case Some(ns) => m.StrWidth(ns) + 1 case None => 0
  {
    if x.namespace.Some? {
      var ns := x.namespace.value;
      StrWidthAppend(m, ns, ":");
      StrWidthAppend(m, ns + ":", x.name);
      assert m.charWidth(':') == 1;
    }
  }

  /** A text run of ASCII characters is as many units long as it has
      characters. */
  lemma TextWidth(m: Metric, x: Text)
    requires m.AsciiUnit() && IsAscii(x.content)
    ensures x.Span(m).start == x.start
    ensures x.Span(m).end - x.Span(m).start == |x.content|
  {
    StrWidthAscii(m, x.content);
  }

  /** A number literal written in ASCII is as many units long as its raw
      text has characters. */
  lemma NumberWidth(m: Metric, x: Number)
    requires m.AsciiUnit() && IsAscii(x.raw)
    ensures x.Span(m).start == x.start
    ensures x.Span(m).end - x.Span(m).start == |x.raw|
  {
    StrWidthAscii(m, x.raw);
  }
}
