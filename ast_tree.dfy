/** The tree view of every AST node, and the proof that it is faithful: for
    each node type, the tree's spans follow the span rules of trees.dfy
    (`Coherent`), and the events of the visitor dispatch on the node are
    exactly the pre-order walk of its tree.

    In the tree of a node, the children are the node's structural children
    in field order, as `apply_visitor_to_children` visits them; an optional
    field contributes a child only when present.  The rule of each node is
    the way its `Span` is computed. */
module AstTrees {
  import opened Wrappers
  import opened Locations
  import opened Ast
  import opened Trees

  type Tree = Node<Event>

  // The message is transparent: its tree is the tree of its content.
  function MessageTree(m: Metric, x: Message): Tree decreases x {
    match x
    case Simple(p) => PatternTree(m, p)
    case Complex(c) => ComplexMessageTree(m, c)
  }

  function PatternTree(m: Metric, x: Pattern): Tree decreases x {
    Node(VisitPattern, x.Span(m), Cover(Some(Span(m.dummy, m.dummy))), PatternPartTrees(m, x.parts))
  }

  function PatternPartTree(m: Metric, x: PatternPart): Tree decreases x {
    var child := match x
      case TextPart(y) => TextTree(m, y)
      case EscapePart(y) => EscapeTree(m, y)
      case ExpressionPart(y) => ExpressionTree(m, y)
      case MarkupPart(y) => MarkupTree(m, y);
    Node(VisitPatternPart, x.Span(m), Wrap, [child])
  }

  function TextTree(m: Metric, x: Text): Tree {
    Node(VisitText, x.Span(m), Anchored(x.start, Some(x.start + m.StrWidth(x.content))), [])
  }

  function EscapeTree(m: Metric, x: Escape): Tree {
    Node(VisitEscape, x.Span(m), Anchored(x.start, Some(x.start + m.StrWidth(x.Source()))), [])
  }

  function ExpressionTree(m: Metric, x: Expression): Tree decreases x {
    var child := match x
      case LiteralExpr(y) => LiteralExpressionTree(m, y)
      case VariableExpr(y) => VariableExpressionTree(m, y)
      case AnnotationExpr(y) => AnnotationExpressionTree(m, y);
    Node(VisitExpression, x.Span(m), Wrap, [child])
  }

  function LiteralExpressionTree(m: Metric, x: LiteralExpression): Tree decreases x {
    Node(VisitLiteralExpression, x.Span(m), Stored,
         [LiteralTree(m, x.literal)] + AnnotationTrees(m, x.annotation) + AttributeTrees(m, x.attributes))
  }

  function VariableExpressionTree(m: Metric, x: VariableExpression): Tree decreases x {
    Node(VisitVariableExpression, x.Span(m), Stored,
         [VariableTree(m, x.variable)] + AnnotationTrees(m, x.annotation) + AttributeTrees(m, x.attributes))
  }

  function VariableTree(m: Metric, x: Variable): Tree {
    Node(VisitVariable, x.Span(m), Stored, [])
  }

  function AnnotationExpressionTree(m: Metric, x: AnnotationExpression): Tree decreases x {
    Node(VisitAnnotationExpression, x.Span(m), Stored,
         [AnnotationTree(m, x.annotation)] + AttributeTrees(m, x.attributes))
  }

  function AnnotationTree(m: Metric, x: Annotation): Tree decreases x {
    var child := match x
      case FunctionAnnotation(y) => FunctionTree(m, y)
      case PrivateUse(y) => PrivateUseAnnotationTree(m, y)
      case Reserved(y) => ReservedAnnotationTree(m, y);
    Node(VisitAnnotation, x.Span(m), Wrap, [child])
  }

  function IdentifierTree(m: Metric, x: Identifier): Tree {
    Node(VisitIdentifier, x.Span(m), Anchored(x.start, Some(x.start + m.StrWidth(x.Source()))), [])
  }

  function FunctionTree(m: Metric, x: Function): Tree decreases x {
    Node(VisitFunction, x.Span(m), Anchored(x.start, Option.None),
         [IdentifierTree(m, x.id)] + OptionTrees(m, x.options))
  }

  function OptionTree(m: Metric, x: FnOrMarkupOption): Tree decreases x {
    Node(VisitFnOrMarkupOption, x.Span(m), Cover(Option.None),
         [IdentifierTree(m, x.key), LiteralOrVariableTree(m, x.value)])
  }

  function AttributeTree(m: Metric, x: Attribute): Tree decreases x {
    var value := match x.value
      case Some(v) => [LiteralOrVariableTree(m, v)]
      case None => [];
    Node(VisitAttribute, x.Span(m), Stored, [IdentifierTree(m, x.key)] + value)
  }

  function LiteralOrVariableTree(m: Metric, x: LiteralOrVariable): Tree decreases x {
    var child := match x
      case LiteralValue(y) => LiteralTree(m, y)
      case VariableValue(y) => VariableTree(m, y);
    Node(VisitLiteralOrVariable, x.Span(m), Wrap, [child])
  }

  function PrivateUseAnnotationTree(m: Metric, x: PrivateUseAnnotation): Tree decreases x {
    Node(VisitPrivateUseAnnotation, x.Span(m), Anchored(x.start, Some(m.AdvanceChar(x.start, x.sigil))),
         BodyPartTrees(m, x.body))
  }

  function ReservedAnnotationTree(m: Metric, x: ReservedAnnotation): Tree decreases x {
    Node(VisitReservedAnnotation, x.Span(m), Anchored(x.start, Some(m.AdvanceChar(x.start, x.sigil))),
         BodyPartTrees(m, x.body))
  }

  function BodyPartTree(m: Metric, x: ReservedBodyPart): Tree decreases x {
    var child := match x
      case BodyText(y) => TextTree(m, y)
      case BodyEscape(y) => EscapeTree(m, y)
      case BodyQuoted(y) => QuotedTree(m, y);
    Node(VisitReservedBodyPart, x.Span(m), Wrap, [child])
  }

  function LiteralTree(m: Metric, x: Literal): Tree decreases x {
    var child := match x
      case QuotedLiteral(y) => QuotedTree(m, y)
      case TextLiteral(y) => TextTree(m, y)
      case NumberLiteral(y) => NumberTree(m, y);
    Node(VisitLiteral, x.Span(m), Wrap, [child])
  }

  function QuotedTree(m: Metric, x: Quoted): Tree decreases x {
    Node(VisitQuoted, x.Span(m), Stored, QuotedPartTrees(m, x.parts))
  }

  function QuotedPartTree(m: Metric, x: QuotedPart): Tree decreases x {
    var child := match x
      case QuotedText(y) => TextTree(m, y)
      case QuotedEscape(y) => EscapeTree(m, y);
    Node(VisitQuotedPart, x.Span(m), Wrap, [child])
  }

  function NumberTree(m: Metric, x: Number): Tree {
    Node(VisitNumber, x.Span(m), Anchored(x.start, Some(x.start + m.StrWidth(x.raw))), [])
  }

  function MarkupTree(m: Metric, x: Markup): Tree decreases x {
    Node(VisitMarkup, x.Span(m), Stored,
         [IdentifierTree(m, x.id)] + OptionTrees(m, x.options) + AttributeTrees(m, x.attributes))
  }

  function ComplexMessageTree(m: Metric, x: ComplexMessage): Tree decreases x {
    Node(VisitComplexMessage, x.Span(m), Union,
         DeclarationTrees(m, x.declarations) + [ComplexMessageBodyTree(m, x.body)])
  }

  function DeclarationTree(m: Metric, x: Declaration): Tree decreases x {
    var child := match x
      case InputDecl(y) => InputDeclarationTree(m, y)
      case LocalDecl(y) => LocalDeclarationTree(m, y)
      case ReservedDecl(y) => ReservedStatementTree(m, y);
    Node(VisitDeclaration, x.Span(m), Wrap, [child])
  }

  function InputDeclarationTree(m: Metric, x: InputDeclaration): Tree decreases x {
    Node(VisitInputDeclaration, x.Span(m), Anchored(x.start, Option.None), [VariableExpressionTree(m, x.expression)])
  }

  function LocalDeclarationTree(m: Metric, x: LocalDeclaration): Tree decreases x {
    Node(VisitLocalDeclaration, x.Span(m), Anchored(x.start, Option.None),
         [VariableTree(m, x.variable), ExpressionTree(m, x.expression)])
  }

  function ReservedStatementTree(m: Metric, x: ReservedStatement): Tree decreases x {
    Node(VisitReservedStatement, x.Span(m),
         Anchored(x.start, Some(m.AdvanceStr(m.AdvanceChar(x.start, '.'), x.name))),
         BodyPartTrees(m, x.body) + ExpressionTrees(m, x.expressions))
  }

  function ComplexMessageBodyTree(m: Metric, x: ComplexMessageBody): Tree decreases x {
    var child := match x
      case QuotedPatternBody(y) => QuotedPatternTree(m, y)
      case MatcherBody(y) => MatcherTree(m, y);
    Node(VisitComplexMessageBody, x.Span(m), Wrap, [child])
  }

  function QuotedPatternTree(m: Metric, x: QuotedPattern): Tree decreases x {
    Node(VisitQuotedPattern, x.Span(m), Stored, [PatternTree(m, x.pattern)])
  }

  function MatcherTree(m: Metric, x: Matcher): Tree decreases x {
    Node(VisitMatcher, x.Span(m), Anchored(x.start, Some(m.AdvanceStr(x.start, ".match"))),
         ExpressionTrees(m, x.selectors) + VariantTrees(m, x.variants))
  }

  function VariantTree(m: Metric, x: Variant): Tree decreases x {
    Node(VisitVariant, x.Span(m), Cover(Option.None), KeyTrees(m, x.keys) + [QuotedPatternTree(m, x.pattern)])
  }

  function KeyTree(m: Metric, x: Key): Tree decreases x {
    var child := match x
      case LiteralKey(y) => LiteralTree(m, y)
      case StarKey(y) => StarTree(m, y);
    Node(VisitKey, x.Span(m), Wrap, [child])
  }

  function StarTree(m: Metric, x: Star): Tree {
    Node(VisitStar, x.Span(m), Anchored(x.start, Some(x.start + m.StrWidth("*"))), [])
  }

  // The trees of the elements of a field, in order.

  function AnnotationTrees(m: Metric, a: Option<Annotation>): (r: seq<Tree>)
    ensures |r| == if a.Some? then 1 else 0
    ensures a.Some? ==> r[0] == AnnotationTree(m, a.value)
    decreases a
  {
    match a
    case Some(x) => [AnnotationTree(m, x)]
    case None => []
  }

  function PatternPartTrees(m: Metric, s: seq<PatternPart>): (r: seq<Tree>)
    ensures |r| == |s| && forall i {:trigger r[i]} :: 0 <= i < |s| ==> r[i] == PatternPartTree(m, s[i])
    decreases s
  {
    if s == [] then [] else
      var init := s[..|s| - 1];
      assert forall i :: 0 <= i < |init| ==> init[i] == s[i];
      var front := PatternPartTrees(m, init);
      var last := PatternPartTree(m, s[|s| - 1]);
      front + [last]
  }

  function AttributeTrees(m: Metric, s: seq<Attribute>): (r: seq<Tree>)
    ensures |r| == |s| && forall i {:trigger r[i]} :: 0 <= i < |s| ==> r[i] == AttributeTree(m, s[i])
    decreases s
  {
    if s == [] then [] else
      var init := s[..|s| - 1];
      assert forall i :: 0 <= i < |init| ==> init[i] == s[i];
      var front := AttributeTrees(m, init);
      var last := AttributeTree(m, s[|s| - 1]);
      front + [last]
  }

  function OptionTrees(m: Metric, s: seq<FnOrMarkupOption>): (r: seq<Tree>)
    ensures |r| == |s| && forall i {:trigger r[i]} :: 0 <= i < |s| ==> r[i] == OptionTree(m, s[i])
    decreases s
  {
    if s == [] then [] else
      var init := s[..|s| - 1];
      assert forall i :: 0 <= i < |init| ==> init[i] == s[i];
      var front := OptionTrees(m, init);
      var last := OptionTree(m, s[|s| - 1]);
      front + [last]
  }

  function BodyPartTrees(m: Metric, s: seq<ReservedBodyPart>): (r: seq<Tree>)
    ensures |r| == |s| && forall i {:trigger r[i]} :: 0 <= i < |s| ==> r[i] == BodyPartTree(m, s[i])
    decreases s
  {
    if s == [] then [] else
      var init := s[..|s| - 1];
      assert forall i :: 0 <= i < |init| ==> init[i] == s[i];
      var front := BodyPartTrees(m, init);
      var last := BodyPartTree(m, s[|s| - 1]);
      front + [last]
  }

  function QuotedPartTrees(m: Metric, s: seq<QuotedPart>): (r: seq<Tree>)
    ensures |r| == |s| && forall i {:trigger r[i]} :: 0 <= i < |s| ==> r[i] == QuotedPartTree(m, s[i])
    decreases s
  {
    if s == [] then [] else
      var init := s[..|s| - 1];
      assert forall i :: 0 <= i < |init| ==> init[i] == s[i];
      var front := QuotedPartTrees(m, init);
      var last := QuotedPartTree(m, s[|s| - 1]);
      front + [last]
  }

  function DeclarationTrees(m: Metric, s: seq<Declaration>): (r: seq<Tree>)
    ensures |r| == |s| && forall i {:trigger r[i]} :: 0 <= i < |s| ==> r[i] == DeclarationTree(m, s[i])
    decreases s
  {
    if s == [] then [] else
      var init := s[..|s| - 1];
      assert forall i :: 0 <= i < |init| ==> init[i] == s[i];
      var front := DeclarationTrees(m, init);
      var last := DeclarationTree(m, s[|s| - 1]);
      front + [last]
  }

  function ExpressionTrees(m: Metric, s: seq<Expression>): (r: seq<Tree>)
    ensures |r| == |s| && forall i {:trigger r[i]} :: 0 <= i < |s| ==> r[i] == ExpressionTree(m, s[i])
    decreases s
  {
    if s == [] then [] else
      var init := s[..|s| - 1];
      assert forall i :: 0 <= i < |init| ==> init[i] == s[i];
      var front := ExpressionTrees(m, init);
      var last := ExpressionTree(m, s[|s| - 1]);
      front + [last]
  }

  function VariantTrees(m: Metric, s: seq<Variant>): (r: seq<Tree>)
    ensures |r| == |s| && forall i {:trigger r[i]} :: 0 <= i < |s| ==> r[i] == VariantTree(m, s[i])
    decreases s
  {
    if s == [] then [] else
      var init := s[..|s| - 1];
      assert forall i :: 0 <= i < |init| ==> init[i] == s[i];
      var front := VariantTrees(m, init);
      var last := VariantTree(m, s[|s| - 1]);
      front + [last]
  }

  function KeyTrees(m: Metric, s: seq<Key>): (r: seq<Tree>)
    ensures |r| == |s| && forall i {:trigger r[i]} :: 0 <= i < |s| ==> r[i] == KeyTree(m, s[i])
    decreases s
  {
    if s == [] then [] else
      var init := s[..|s| - 1];
      assert forall i :: 0 <= i < |init| ==> init[i] == s[i];
      var front := KeyTrees(m, init);
      var last := KeyTree(m, s[|s| - 1]);
      front + [last]
  }

  // ---------------------------------------------------------------------
  // Each node's tree follows the span rules, and the dispatch on the node
  // emits the pre-order walk of its tree.

  /** An AST node's tree is faithful to the node. */
  ghost predicate Faithful(t: Tree, span: Span, apply: seq<Event>, applyToChildren: seq<Event>)
  {
    Coherent(t) && t.span == span && Events(t) == apply && EventsAll(t.children) == applyToChildren
  }

  lemma FaithfulIntro(t: Tree, span: Span, apply: seq<Event>, applyToChildren: seq<Event>)
    requires LocallyCoherent(t) && AllCoherent(t.children) && t.span == span
    requires EventsAll(t.children) == applyToChildren && apply == [t.kind] + applyToChildren
    ensures Faithful(t, span, apply, applyToChildren)
  {
  }

  lemma {:induction false} MessageAgrees(m: Metric, x: Message)
    ensures Faithful(MessageTree(m, x), x.Span(m), x.Apply(), x.ApplyToChildren())
    decreases x
  {
    match x
    case Simple(p) => PatternAgrees(m, p);
    case Complex(c) => ComplexMessageAgrees(m, c);
  }

  lemma {:induction false} PatternAgrees(m: Metric, x: Pattern)
    ensures Faithful(PatternTree(m, x), x.Span(m), x.Apply(), x.ApplyToChildren())
    decreases x
  {
    PatternPartsAgree(m, x.parts);
  }

  lemma {:induction false} PatternPartAgrees(m: Metric, x: PatternPart)
    ensures Faithful(PatternPartTree(m, x), x.Span(m), x.Apply(), x.ApplyToChildren())
    decreases x
  {
    var t := PatternPartTree(m, x);
    EventsAllSingle(t.children[0]);
    match x
    case TextPart(y) => TextAgrees(m, y);
    case EscapePart(y) => EscapeAgrees(m, y);
    case ExpressionPart(y) => ExpressionAgrees(m, y);
    case MarkupPart(y) => MarkupAgrees(m, y);
  }

  lemma TextAgrees(m: Metric, x: Text)
    ensures Faithful(TextTree(m, x), x.Span(m), x.Apply(), x.ApplyToChildren())
  {
  }

  lemma EscapeAgrees(m: Metric, x: Escape)
    ensures Faithful(EscapeTree(m, x), x.Span(m), x.Apply(), x.ApplyToChildren())
  {
  }

  lemma {:induction false} ExpressionAgrees(m: Metric, x: Expression)
    ensures Faithful(ExpressionTree(m, x), x.Span(m), x.Apply(), x.ApplyToChildren())
    decreases x
  {
    var t := ExpressionTree(m, x);
    EventsAllSingle(t.children[0]);
    match x
    case LiteralExpr(y) => LiteralExpressionAgrees(m, y);
    case VariableExpr(y) => VariableExpressionAgrees(m, y);
    case AnnotationExpr(y) => AnnotationExpressionAgrees(m, y);
  }

  /** The children of a `LiteralExpression` node: the literal, the annotation when present, the attributes. */
  lemma {:induction false} LiteralExpressionChildrenAgree(m: Metric, literal: Literal, annotation: Option<Annotation>, attributes: seq<Attribute>)
    ensures AllCoherent([LiteralTree(m, literal)] + AnnotationTrees(m, annotation) + AttributeTrees(m, attributes))
    ensures EventsAll([LiteralTree(m, literal)] + AnnotationTrees(m, annotation) + AttributeTrees(m, attributes)) == literal.Apply() + ApplyOptionalAnnotation(annotation) + ApplyAttributes(attributes)
  {
    LiteralAgrees(m, literal);
    OptionalAnnotationAgrees(m, annotation);
    AttributesAgree(m, attributes);
    EventsAllSingle(LiteralTree(m, literal));
    AllCoherentTriple([LiteralTree(m, literal)], AnnotationTrees(m, annotation), AttributeTrees(m, attributes));
    EventsAllTriple([LiteralTree(m, literal)], AnnotationTrees(m, annotation), AttributeTrees(m, attributes));
  }

  lemma {:induction false} LiteralExpressionAgrees(m: Metric, x: LiteralExpression)
    ensures Faithful(LiteralExpressionTree(m, x), x.Span(m), x.Apply(), x.ApplyToChildren())
    decreases x
  {
    var t := LiteralExpressionTree(m, x);
    LiteralExpressionChildrenAgree(m, x.literal, x.annotation, x.attributes);
    FaithfulIntro(t, x.Span(m), x.Apply(), x.ApplyToChildren());
  }

  /** The children of a `VariableExpression` node: the variable, the annotation when present, the attributes. */
  lemma {:induction false} VariableExpressionChildrenAgree(m: Metric, variable: Variable, annotation: Option<Annotation>, attributes: seq<Attribute>)
    ensures AllCoherent([VariableTree(m, variable)] + AnnotationTrees(m, annotation) + AttributeTrees(m, attributes))
    ensures EventsAll([VariableTree(m, variable)] + AnnotationTrees(m, annotation) + AttributeTrees(m, attributes)) == variable.Apply() + ApplyOptionalAnnotation(annotation) + ApplyAttributes(attributes)
  {
    VariableAgrees(m, variable);
    OptionalAnnotationAgrees(m, annotation);
    AttributesAgree(m, attributes);
    EventsAllSingle(VariableTree(m, variable));
    AllCoherentTriple([VariableTree(m, variable)], AnnotationTrees(m, annotation), AttributeTrees(m, attributes));
    EventsAllTriple([VariableTree(m, variable)], AnnotationTrees(m, annotation), AttributeTrees(m, attributes));
  }

  lemma {:induction false} VariableExpressionAgrees(m: Metric, x: VariableExpression)
    ensures Faithful(VariableExpressionTree(m, x), x.Span(m), x.Apply(), x.ApplyToChildren())
    decreases x
  {
    var t := VariableExpressionTree(m, x);
    VariableExpressionChildrenAgree(m, x.variable, x.annotation, x.attributes);
    FaithfulIntro(t, x.Span(m), x.Apply(), x.ApplyToChildren());
  }

  lemma VariableAgrees(m: Metric, x: Variable)
    ensures Faithful(VariableTree(m, x), x.Span(m), x.Apply(), x.ApplyToChildren())
  {
  }

  /** The children of a `AnnotationExpression` node: the annotation, the attributes. */
  lemma {:induction false} AnnotationExpressionChildrenAgree(m: Metric, annotation: Annotation, attributes: seq<Attribute>)
    ensures AllCoherent([AnnotationTree(m, annotation)] + AttributeTrees(m, attributes))
    ensures EventsAll([AnnotationTree(m, annotation)] + AttributeTrees(m, attributes)) == annotation.Apply() + ApplyAttributes(attributes)
  {
    AnnotationAgrees(m, annotation);
    AttributesAgree(m, attributes);
    EventsAllSingle(AnnotationTree(m, annotation));
    AllCoherentAppend([AnnotationTree(m, annotation)], AttributeTrees(m, attributes));
    EventsAllAppend([AnnotationTree(m, annotation)], AttributeTrees(m, attributes));
  }

  lemma {:induction false} AnnotationExpressionAgrees(m: Metric, x: AnnotationExpression)
    ensures Faithful(AnnotationExpressionTree(m, x), x.Span(m), x.Apply(), x.ApplyToChildren())
    decreases x
  {
    var t := AnnotationExpressionTree(m, x);
    AnnotationExpressionChildrenAgree(m, x.annotation, x.attributes);
    FaithfulIntro(t, x.Span(m), x.Apply(), x.ApplyToChildren());
  }

  lemma {:induction false} AnnotationAgrees(m: Metric, x: Annotation)
    ensures Faithful(AnnotationTree(m, x), x.Span(m), x.Apply(), x.ApplyToChildren())
    decreases x
  {
    var t := AnnotationTree(m, x);
    EventsAllSingle(t.children[0]);
    match x
    case FunctionAnnotation(y) => FunctionAgrees(m, y);
    case PrivateUse(y) => PrivateUseAnnotationAgrees(m, y);
    case Reserved(y) => ReservedAnnotationAgrees(m, y);
  }

  lemma IdentifierAgrees(m: Metric, x: Identifier)
    ensures Faithful(IdentifierTree(m, x), x.Span(m), x.Apply(), x.ApplyToChildren())
  {
  }

  /** The children of a `Function` node: the id, the options. */
  lemma {:induction false} FunctionChildrenAgree(m: Metric, id: Identifier, options: seq<FnOrMarkupOption>)
    ensures AllCoherent([IdentifierTree(m, id)] + OptionTrees(m, options))
    ensures EventsAll([IdentifierTree(m, id)] + OptionTrees(m, options)) == id.Apply() + ApplyOptions(options)
  {
    IdentifierAgrees(m, id);
    OptionsAgree(m, options);
    EventsAllSingle(IdentifierTree(m, id));
    AllCoherentAppend([IdentifierTree(m, id)], OptionTrees(m, options));
    EventsAllAppend([IdentifierTree(m, id)], OptionTrees(m, options));
  }

  lemma {:induction false} FunctionAgrees(m: Metric, x: Function)
    ensures Faithful(FunctionTree(m, x), x.Span(m), x.Apply(), x.ApplyToChildren())
    decreases x
  {
    var t := FunctionTree(m, x);
    FunctionChildrenAgree(m, x.id, x.options);
    assert LocallyCoherent(t) by {
      if |x.options| > 0 {
        assert t.children[|t.children| - 1] == OptionTree(m, x.options[|x.options| - 1]);
      } else {
        assert t.children == [IdentifierTree(m, x.id)];
      }
    }
    FaithfulIntro(t, x.Span(m), x.Apply(), x.ApplyToChildren());
  }

  lemma {:induction false} OptionAgrees(m: Metric, x: FnOrMarkupOption)
    ensures Faithful(OptionTree(m, x), x.Span(m), x.Apply(), x.ApplyToChildren())
    decreases x
  {
    var t := OptionTree(m, x);
    var key := IdentifierTree(m, x.key);
    var value := LiteralOrVariableTree(m, x.value);
    assert t.children == [key] + [value];
    IdentifierAgrees(m, x.key);
    LiteralOrVariableAgrees(m, x.value);
    AllCoherentAppend([key], [value]);
    EventsAllSingle(key);
    EventsAllSingle(value);
    EventsAllAppend([key], [value]);
    FaithfulIntro(t, x.Span(m), x.Apply(), x.ApplyToChildren());
  }

  lemma {:induction false} AttributeAgrees(m: Metric, x: Attribute)
    ensures Faithful(AttributeTree(m, x), x.Span(m), x.Apply(), x.ApplyToChildren())
    decreases x
  {
    var t := AttributeTree(m, x);
    var key := IdentifierTree(m, x.key);
    var value := t.children[1..];
    assert t.children == [key] + value;
    IdentifierAgrees(m, x.key);
    match x.value {
      case Some(v) =>
        LiteralOrVariableAgrees(m, v);
        assert value == [LiteralOrVariableTree(m, v)];
        EventsAllSingle(value[0]);
      case None =>
        assert value == [];
    }
    AllCoherentAppend([key], value);
    EventsAllSingle(key);
    EventsAllAppend([key], value);
    FaithfulIntro(t, x.Span(m), x.Apply(), x.ApplyToChildren());
  }

  lemma {:induction false} LiteralOrVariableAgrees(m: Metric, x: LiteralOrVariable)
    ensures Faithful(LiteralOrVariableTree(m, x), x.Span(m), x.Apply(), x.ApplyToChildren())
    decreases x
  {
    var t := LiteralOrVariableTree(m, x);
    EventsAllSingle(t.children[0]);
    match x
    case LiteralValue(y) => LiteralAgrees(m, y);
    case VariableValue(y) => VariableAgrees(m, y);
  }

  lemma {:induction false} PrivateUseAnnotationAgrees(m: Metric, x: PrivateUseAnnotation)
    ensures Faithful(PrivateUseAnnotationTree(m, x), x.Span(m), x.Apply(), x.ApplyToChildren())
    decreases x
  {
    var t := PrivateUseAnnotationTree(m, x);
    var body := BodyPartTrees(m, x.body);
    assert t.children == body;
    BodyPartsAgree(m, x.body);
    assert LocallyCoherent(t) by {
      if |body| > 0 {
        assert t.children[|t.children| - 1] == BodyPartTree(m, x.body[|x.body| - 1]);
      }
    }
    FaithfulIntro(t, x.Span(m), x.Apply(), x.ApplyToChildren());
  }

  lemma {:induction false} ReservedAnnotationAgrees(m: Metric, x: ReservedAnnotation)
    ensures Faithful(ReservedAnnotationTree(m, x), x.Span(m), x.Apply(), x.ApplyToChildren())
    decreases x
  {
    var t := ReservedAnnotationTree(m, x);
    var body := BodyPartTrees(m, x.body);
    assert t.children == body;
    BodyPartsAgree(m, x.body);
    assert LocallyCoherent(t) by {
      if |body| > 0 {
        assert t.children[|t.children| - 1] == BodyPartTree(m, x.body[|x.body| - 1]);
      }
    }
    FaithfulIntro(t, x.Span(m), x.Apply(), x.ApplyToChildren());
  }

  lemma {:induction false} BodyPartAgrees(m: Metric, x: ReservedBodyPart)
    ensures Faithful(BodyPartTree(m, x), x.Span(m), x.Apply(), x.ApplyToChildren())
    decreases x
  {
    var t := BodyPartTree(m, x);
    EventsAllSingle(t.children[0]);
    match x
    case BodyText(y) => TextAgrees(m, y);
    case BodyEscape(y) => EscapeAgrees(m, y);
    case BodyQuoted(y) => QuotedAgrees(m, y);
  }

  lemma {:induction false} LiteralAgrees(m: Metric, x: Literal)
    ensures Faithful(LiteralTree(m, x), x.Span(m), x.Apply(), x.ApplyToChildren())
    decreases x
  {
    var t := LiteralTree(m, x);
    EventsAllSingle(t.children[0]);
    match x
    case QuotedLiteral(y) => QuotedAgrees(m, y);
    case TextLiteral(y) => TextAgrees(m, y);
    case NumberLiteral(y) => NumberAgrees(m, y);
  }

  lemma {:induction false} QuotedAgrees(m: Metric, x: Quoted)
    ensures Faithful(QuotedTree(m, x), x.Span(m), x.Apply(), x.ApplyToChildren())
    decreases x
  {
    QuotedPartsAgree(m, x.parts);
  }

  lemma {:induction false} QuotedPartAgrees(m: Metric, x: QuotedPart)
    ensures Faithful(QuotedPartTree(m, x), x.Span(m), x.Apply(), x.ApplyToChildren())
    decreases x
  {
    var t := QuotedPartTree(m, x);
    EventsAllSingle(t.children[0]);
    match x
    case QuotedText(y) => TextAgrees(m, y);
    case QuotedEscape(y) => EscapeAgrees(m, y);
  }

  lemma NumberAgrees(m: Metric, x: Number)
    ensures Faithful(NumberTree(m, x), x.Span(m), x.Apply(), x.ApplyToChildren())
  {
  }

  /** The children of a markup node: its id, its options, its attributes. */
  lemma {:induction false} MarkupChildrenAgree(m: Metric, id: Identifier, options: seq<FnOrMarkupOption>, attributes: seq<Attribute>)
    ensures var cs := [IdentifierTree(m, id)] + OptionTrees(m, options) + AttributeTrees(m, attributes);
      AllCoherent(cs) && EventsAll(cs) == id.Apply() + ApplyOptions(options) + ApplyAttributes(attributes)
  {
    var first := [IdentifierTree(m, id)];
    IdentifierAgrees(m, id);
    OptionsAgree(m, options);
    AttributesAgree(m, attributes);
    EventsAllSingle(first[0]);
    AllCoherentTriple(first, OptionTrees(m, options), AttributeTrees(m, attributes));
    EventsAllTriple(first, OptionTrees(m, options), AttributeTrees(m, attributes));
  }

  lemma {:induction false} MarkupAgrees(m: Metric, x: Markup)
    ensures Faithful(MarkupTree(m, x), x.Span(m), x.Apply(), x.ApplyToChildren())
    decreases x
  {
    MarkupChildrenAgree(m, x.id, x.options, x.attributes);
    FaithfulIntro(MarkupTree(m, x), x.Span(m), x.Apply(), x.ApplyToChildren());
  }

  lemma ComplexMessageSpanRule(m: Metric, x: ComplexMessage)
    ensures LocallyCoherent(ComplexMessageTree(m, x))
  {
    var t := ComplexMessageTree(m, x);
    var declarations := DeclarationTrees(m, x.declarations);
    var body := ComplexMessageBodyTree(m, x.body);
    var cs := t.children;
    assert cs == declarations + [body];
    assert cs[|cs| - 1] == body;
    if |declarations| > 0 {
      var n := |x.declarations|;
      assert cs[0] == declarations[0] == DeclarationTree(m, x.declarations[0]);
      assert cs[|cs| - 2] == declarations[n - 1] == DeclarationTree(m, x.declarations[n - 1]);
      assert t.span == Span(Min(cs[0].span.start, body.span.start), Max(cs[|cs| - 2].span.end, body.span.end));
    } else {
      assert cs == [body];
    }
  }

  /** The children of a `ComplexMessage` node: the declarations, the body. */
  lemma {:induction false} ComplexMessageChildrenAgree(m: Metric, declarations: seq<Declaration>, body: ComplexMessageBody)
    ensures AllCoherent(DeclarationTrees(m, declarations) + [ComplexMessageBodyTree(m, body)])
    ensures EventsAll(DeclarationTrees(m, declarations) + [ComplexMessageBodyTree(m, body)]) == ApplyDeclarations(declarations) + body.Apply()
  {
    DeclarationsAgree(m, declarations);
    ComplexMessageBodyAgrees(m, body);
    EventsAllSingle(ComplexMessageBodyTree(m, body));
    AllCoherentAppend(DeclarationTrees(m, declarations), [ComplexMessageBodyTree(m, body)]);
    EventsAllAppend(DeclarationTrees(m, declarations), [ComplexMessageBodyTree(m, body)]);
  }

  lemma {:induction false} ComplexMessageAgrees(m: Metric, x: ComplexMessage)
    ensures Faithful(ComplexMessageTree(m, x), x.Span(m), x.Apply(), x.ApplyToChildren())
    decreases x
  {
    var t := ComplexMessageTree(m, x);
    ComplexMessageChildrenAgree(m, x.declarations, x.body);
    ComplexMessageSpanRule(m, x);
    FaithfulIntro(t, x.Span(m), x.Apply(), x.ApplyToChildren());
  }

  lemma {:induction false} DeclarationAgrees(m: Metric, x: Declaration)
    ensures Faithful(DeclarationTree(m, x), x.Span(m), x.Apply(), x.ApplyToChildren())
    decreases x
  {
    var t := DeclarationTree(m, x);
    EventsAllSingle(t.children[0]);
    match x
    case InputDecl(y) => InputDeclarationAgrees(m, y);
    case LocalDecl(y) => LocalDeclarationAgrees(m, y);
    case ReservedDecl(y) => ReservedStatementAgrees(m, y);
  }

  lemma {:induction false} InputDeclarationAgrees(m: Metric, x: InputDeclaration)
    ensures Faithful(InputDeclarationTree(m, x), x.Span(m), x.Apply(), x.ApplyToChildren())
    decreases x
  {
    var t := InputDeclarationTree(m, x);
    assert t.children == [VariableExpressionTree(m, x.expression)];
    VariableExpressionAgrees(m, x.expression);
    EventsAllSingle(t.children[0]);
    FaithfulIntro(t, x.Span(m), x.Apply(), x.ApplyToChildren());
  }

  lemma {:induction false} LocalDeclarationAgrees(m: Metric, x: LocalDeclaration)
    ensures Faithful(LocalDeclarationTree(m, x), x.Span(m), x.Apply(), x.ApplyToChildren())
    decreases x
  {
    var t := LocalDeclarationTree(m, x);
    var variable := VariableTree(m, x.variable);
    var expression := ExpressionTree(m, x.expression);
    VariableAgrees(m, x.variable);
    ExpressionAgrees(m, x.expression);
    assert AllCoherent(t.children);
    assert LocallyCoherent(t) by {
      assert t.children[1] == expression;
    }
    EventsAllPair(variable, expression);
    FaithfulIntro(t, x.Span(m), x.Apply(), x.ApplyToChildren());
  }

  /** The children of a `ReservedStatement` node: the body parts, the expressions. */
  lemma {:induction false} ReservedStatementChildrenAgree(m: Metric, body: seq<ReservedBodyPart>, expressions: seq<Expression>)
    ensures AllCoherent(BodyPartTrees(m, body) + ExpressionTrees(m, expressions))
    ensures EventsAll(BodyPartTrees(m, body) + ExpressionTrees(m, expressions)) == ApplyBodyParts(body) + ApplyExpressions(expressions)
  {
    BodyPartsAgree(m, body);
    ExpressionsAgree(m, expressions);
    AllCoherentAppend(BodyPartTrees(m, body), ExpressionTrees(m, expressions));
    EventsAllAppend(BodyPartTrees(m, body), ExpressionTrees(m, expressions));
  }

  lemma {:induction false} ReservedStatementAgrees(m: Metric, x: ReservedStatement)
    ensures Faithful(ReservedStatementTree(m, x), x.Span(m), x.Apply(), x.ApplyToChildren())
    decreases x
  {
    var t := ReservedStatementTree(m, x);
    ReservedStatementChildrenAgree(m, x.body, x.expressions);
    FaithfulIntro(t, x.Span(m), x.Apply(), x.ApplyToChildren());
  }

  lemma {:induction false} ComplexMessageBodyAgrees(m: Metric, x: ComplexMessageBody)
    ensures Faithful(ComplexMessageBodyTree(m, x), x.Span(m), x.Apply(), x.ApplyToChildren())
    decreases x
  {
    var t := ComplexMessageBodyTree(m, x);
    EventsAllSingle(t.children[0]);
    match x
    case QuotedPatternBody(y) => QuotedPatternAgrees(m, y);
    case MatcherBody(y) => MatcherAgrees(m, y);
  }

  lemma {:induction false} QuotedPatternAgrees(m: Metric, x: QuotedPattern)
    ensures Faithful(QuotedPatternTree(m, x), x.Span(m), x.Apply(), x.ApplyToChildren())
    decreases x
  {
    var t := QuotedPatternTree(m, x);
    assert t.children == [PatternTree(m, x.pattern)];
    PatternAgrees(m, x.pattern);
    EventsAllSingle(t.children[0]);
    FaithfulIntro(t, x.Span(m), x.Apply(), x.ApplyToChildren());
  }

  /** The children of a `Matcher` node: the selectors, the variants. */
  lemma {:induction false} MatcherChildrenAgree(m: Metric, selectors: seq<Expression>, variants: seq<Variant>)
    ensures AllCoherent(ExpressionTrees(m, selectors) + VariantTrees(m, variants))
    ensures EventsAll(ExpressionTrees(m, selectors) + VariantTrees(m, variants)) == ApplyExpressions(selectors) + ApplyVariants(variants)
  {
    ExpressionsAgree(m, selectors);
    VariantsAgree(m, variants);
    AllCoherentAppend(ExpressionTrees(m, selectors), VariantTrees(m, variants));
    EventsAllAppend(ExpressionTrees(m, selectors), VariantTrees(m, variants));
  }

  lemma {:induction false} MatcherAgrees(m: Metric, x: Matcher)
    ensures Faithful(MatcherTree(m, x), x.Span(m), x.Apply(), x.ApplyToChildren())
    decreases x
  {
    var t := MatcherTree(m, x);
    MatcherChildrenAgree(m, x.selectors, x.variants);
    assert LocallyCoherent(t) by {
      var cs := t.children;
      if |x.variants| > 0 {
        assert cs[|cs| - 1] == VariantTree(m, x.variants[|x.variants| - 1]);
      } else if |x.selectors| > 0 {
        assert cs[|cs| - 1] == ExpressionTree(m, x.selectors[|x.selectors| - 1]);
      }
    }
    FaithfulIntro(t, x.Span(m), x.Apply(), x.ApplyToChildren());
  }

  /** The children of a `Variant` node: the keys, the pattern. */
  lemma {:induction false} VariantChildrenAgree(m: Metric, keys: seq<Key>, pattern: QuotedPattern)
    ensures AllCoherent(KeyTrees(m, keys) + [QuotedPatternTree(m, pattern)])
    ensures EventsAll(KeyTrees(m, keys) + [QuotedPatternTree(m, pattern)]) == ApplyKeys(keys) + pattern.Apply()
  {
    KeysAgree(m, keys);
    QuotedPatternAgrees(m, pattern);
    EventsAllSingle(QuotedPatternTree(m, pattern));
    AllCoherentAppend(KeyTrees(m, keys), [QuotedPatternTree(m, pattern)]);
    EventsAllAppend(KeyTrees(m, keys), [QuotedPatternTree(m, pattern)]);
  }

  lemma {:induction false} VariantAgrees(m: Metric, x: Variant)
    ensures Faithful(VariantTree(m, x), x.Span(m), x.Apply(), x.ApplyToChildren())
    decreases x
  {
    var t := VariantTree(m, x);
    VariantChildrenAgree(m, x.keys, x.pattern);
    FaithfulIntro(t, x.Span(m), x.Apply(), x.ApplyToChildren());
  }

  lemma {:induction false} KeyAgrees(m: Metric, x: Key)
    ensures Faithful(KeyTree(m, x), x.Span(m), x.Apply(), x.ApplyToChildren())
    decreases x
  {
    var t := KeyTree(m, x);
    EventsAllSingle(t.children[0]);
    match x
    case LiteralKey(y) => LiteralAgrees(m, y);
    case StarKey(y) => StarAgrees(m, y);
  }

  lemma StarAgrees(m: Metric, x: Star)
    ensures Faithful(StarTree(m, x), x.Span(m), x.Apply(), x.ApplyToChildren())
  {
  }

  // The fields that hold sequences: every element's tree is faithful, and
  // the loop over the field emits the walks of the elements' trees in order.

  lemma {:induction false} OptionalAnnotationAgrees(m: Metric, a: Option<Annotation>)
    ensures AllCoherent(AnnotationTrees(m, a))
    ensures EventsAll(AnnotationTrees(m, a)) == ApplyOptionalAnnotation(a)
    decreases a
  {
    match a
    case Some(x) =>
      AnnotationAgrees(m, x);
      EventsAllSingle(AnnotationTree(m, x));
    case None =>
  }

  lemma {:induction false} PatternPartsAgree(m: Metric, s: seq<PatternPart>)
    ensures AllCoherent(PatternPartTrees(m, s))
    ensures EventsAll(PatternPartTrees(m, s)) == ApplyPatternParts(s)
    decreases s
  {
    forall i | 0 <= i < |s| ensures Coherent(PatternPartTrees(m, s)[i]) {
      PatternPartAgrees(m, s[i]);
    }
    if s != [] {
      var init := s[..|s| - 1];
      PatternPartsAgree(m, init);
      PatternPartAgrees(m, s[|s| - 1]);
      EventsAllAppend(PatternPartTrees(m, init), [PatternPartTree(m, s[|s| - 1])]);
      EventsAllSingle(PatternPartTree(m, s[|s| - 1]));
    }
  }

  lemma {:induction false} AttributesAgree(m: Metric, s: seq<Attribute>)
    ensures AllCoherent(AttributeTrees(m, s))
    ensures EventsAll(AttributeTrees(m, s)) == ApplyAttributes(s)
    decreases s
  {
    forall i | 0 <= i < |s| ensures Coherent(AttributeTrees(m, s)[i]) {
      AttributeAgrees(m, s[i]);
    }
    if s != [] {
      var init := s[..|s| - 1];
      AttributesAgree(m, init);
      AttributeAgrees(m, s[|s| - 1]);
      EventsAllAppend(AttributeTrees(m, init), [AttributeTree(m, s[|s| - 1])]);
      EventsAllSingle(AttributeTree(m, s[|s| - 1]));
    }
  }

  lemma {:induction false} OptionsAgree(m: Metric, s: seq<FnOrMarkupOption>)
    ensures AllCoherent(OptionTrees(m, s))
    ensures EventsAll(OptionTrees(m, s)) == ApplyOptions(s)
    decreases s
  {
    forall i | 0 <= i < |s| ensures Coherent(OptionTrees(m, s)[i]) {
      OptionAgrees(m, s[i]);
    }
    if s != [] {
      var init := s[..|s| - 1];
      OptionsAgree(m, init);
      OptionAgrees(m, s[|s| - 1]);
      EventsAllAppend(OptionTrees(m, init), [OptionTree(m, s[|s| - 1])]);
      EventsAllSingle(OptionTree(m, s[|s| - 1]));
    }
  }

  lemma {:induction false} BodyPartsAgree(m: Metric, s: seq<ReservedBodyPart>)
    ensures AllCoherent(BodyPartTrees(m, s))
    ensures EventsAll(BodyPartTrees(m, s)) == ApplyBodyParts(s)
    decreases s
  {
    forall i | 0 <= i < |s| ensures Coherent(BodyPartTrees(m, s)[i]) {
      BodyPartAgrees(m, s[i]);
    }
    if s != [] {
      var init := s[..|s| - 1];
      BodyPartsAgree(m, init);
      BodyPartAgrees(m, s[|s| - 1]);
      EventsAllAppend(BodyPartTrees(m, init), [BodyPartTree(m, s[|s| - 1])]);
      EventsAllSingle(BodyPartTree(m, s[|s| - 1]));
    }
  }

  lemma {:induction false} QuotedPartsAgree(m: Metric, s: seq<QuotedPart>)
    ensures AllCoherent(QuotedPartTrees(m, s))
    ensures EventsAll(QuotedPartTrees(m, s)) == ApplyQuotedParts(s)
    decreases s
  {
    forall i | 0 <= i < |s| ensures Coherent(QuotedPartTrees(m, s)[i]) {
      QuotedPartAgrees(m, s[i]);
    }
    if s != [] {
      var init := s[..|s| - 1];
      QuotedPartsAgree(m, init);
      QuotedPartAgrees(m, s[|s| - 1]);
      EventsAllAppend(QuotedPartTrees(m, init), [QuotedPartTree(m, s[|s| - 1])]);
      EventsAllSingle(QuotedPartTree(m, s[|s| - 1]));
    }
  }

  lemma {:induction false} DeclarationsAgree(m: Metric, s: seq<Declaration>)
    ensures AllCoherent(DeclarationTrees(m, s))
    ensures EventsAll(DeclarationTrees(m, s)) == ApplyDeclarations(s)
    decreases s
  {
    forall i | 0 <= i < |s| ensures Coherent(DeclarationTrees(m, s)[i]) {
      DeclarationAgrees(m, s[i]);
    }
    if s != [] {
      var init := s[..|s| - 1];
      DeclarationsAgree(m, init);
      DeclarationAgrees(m, s[|s| - 1]);
      EventsAllAppend(DeclarationTrees(m, init), [DeclarationTree(m, s[|s| - 1])]);
      EventsAllSingle(DeclarationTree(m, s[|s| - 1]));
    }
  }

  lemma {:induction false} ExpressionsAgree(m: Metric, s: seq<Expression>)
    ensures AllCoherent(ExpressionTrees(m, s))
    ensures EventsAll(ExpressionTrees(m, s)) == ApplyExpressions(s)
    decreases s
  {
    forall i | 0 <= i < |s| ensures Coherent(ExpressionTrees(m, s)[i]) {
      ExpressionAgrees(m, s[i]);
    }
    if s != [] {
      var init := s[..|s| - 1];
      ExpressionsAgree(m, init);
      ExpressionAgrees(m, s[|s| - 1]);
      EventsAllAppend(ExpressionTrees(m, init), [ExpressionTree(m, s[|s| - 1])]);
      EventsAllSingle(ExpressionTree(m, s[|s| - 1]));
    }
  }

  lemma {:induction false} VariantsAgree(m: Metric, s: seq<Variant>)
    ensures AllCoherent(VariantTrees(m, s))
    ensures EventsAll(VariantTrees(m, s)) == ApplyVariants(s)
    decreases s
  {
    forall i | 0 <= i < |s| ensures Coherent(VariantTrees(m, s)[i]) {
      VariantAgrees(m, s[i]);
    }
    if s != [] {
      var init := s[..|s| - 1];
      VariantsAgree(m, init);
      VariantAgrees(m, s[|s| - 1]);
      EventsAllAppend(VariantTrees(m, init), [VariantTree(m, s[|s| - 1])]);
      EventsAllSingle(VariantTree(m, s[|s| - 1]));
    }
  }

  lemma {:induction false} KeysAgree(m: Metric, s: seq<Key>)
    ensures AllCoherent(KeyTrees(m, s))
    ensures EventsAll(KeyTrees(m, s)) == ApplyKeys(s)
    decreases s
  {
    forall i | 0 <= i < |s| ensures Coherent(KeyTrees(m, s)[i]) {
      KeyAgrees(m, s[i]);
    }
    if s != [] {
      var init := s[..|s| - 1];
      KeysAgree(m, init);
      KeyAgrees(m, s[|s| - 1]);
      EventsAllAppend(KeyTrees(m, init), [KeyTree(m, s[|s| - 1])]);
      EventsAllSingle(KeyTree(m, s[|s| - 1]));
    }
  }

  // ---------------------------------------------------------------------
  // The main theorems.  For every message, the fully recursing visitor
  // meets every node of the message's tree once, in pre-order.  When the
  // tree also satisfies `Built`, pre-order is the order the nodes' spans
  // start in the source, and every span it meets lies inside the message's
  // span and starts no later than it ends.

  /** Dispatch, for every message: one event per node of its tree, in
      pre-order, and none for the `Message` wrapper itself. */
  lemma MessageDispatch(m: Metric, msg: Message)
    ensures msg.Apply() == Kinds(PreOrder(MessageTree(m, msg)))
    ensures |msg.Apply()| == Size(MessageTree(m, msg))
  {
    var t := MessageTree(m, msg);
    MessageAgrees(m, msg);
    EventsArePreOrder(t);
    EventCount(t);
  }

  /** `Built` does not hold of every message: an empty pattern takes the
      dummy location as its span, which need not lie inside the stored span
      of the quoted pattern around it, as in `{{}}` written anywhere but at
      the dummy location. */
  lemma EmptyQuotedPatternNotBuilt(m: Metric)
    ensures var q := QuotedPattern(Locations.Span(m.dummy + 1, m.dummy + 5), Pattern([]));
      !Built(MessageTree(m, Complex(ComplexMessage([], QuotedPatternBody(q)))))
  {
    var q := QuotedPattern(Locations.Span(m.dummy + 1, m.dummy + 5), Pattern([]));
    var qt := QuotedPatternTree(m, q);
    assert qt.children == [PatternTree(m, Pattern([]))];
    assert qt.children[0].span.start == m.dummy;
    assert !LocallyBuilt(qt);
    assert !Built(qt);
    var body := ComplexMessageBodyTree(m, QuotedPatternBody(q));
    assert body.children[0] == qt;
    assert !Built(body);
    var cm := ComplexMessageTree(m, ComplexMessage([], QuotedPatternBody(q)));
    assert cm.children[|cm.children| - 1] == body;
    assert !Built(cm);
  }

  lemma MessageWalk(m: Metric, msg: Message)
    requires Built(MessageTree(m, msg))
    ensures Sound(MessageTree(m, msg))
    ensures MessageTree(m, msg).span == msg.Span(m)
    ensures msg.Apply() == Kinds(PreOrder(MessageTree(m, msg)))
    ensures |msg.Apply()| == Size(MessageTree(m, msg))
    ensures forall i :: 0 <= i < |PreOrder(MessageTree(m, msg))| ==>
      msg.Span(m).start <= PreOrder(MessageTree(m, msg))[i].span.start
        <= PreOrder(MessageTree(m, msg))[i].span.end <= msg.Span(m).end
    ensures forall i, j :: 0 <= i < j < |PreOrder(MessageTree(m, msg))| ==>
      PreOrder(MessageTree(m, msg))[i].span.start <= PreOrder(MessageTree(m, msg))[j].span.start
  {
    var t := MessageTree(m, msg);
    MessageAgrees(m, msg);
    Soundness(t);
    EventsArePreOrder(t);
    EventCount(t);
    PreOrderInSourceOrder(t);
  }
}
