/** The visitor dispatch as the source runs it.  A visitor is passed by
    mutable reference down the tree; each node fires its own callback on it
    and then hands it to its children in field order, with one `for` loop
    per repeated field and a presence test per optional one.  The visitor
    modelled here is the one whose every callback recurses into the node's
    children and records that it was called, so its state is the trace of
    the callbacks fired so far.  Each method is proved to append exactly
    the events that the dispatch functions of `Ast` describe; what those
    events are, in which order and how many, is proved about the functions
    in `AstTrees`. */
module Tracing {
  import opened Wrappers
  import opened Ast

  /** Appending in two steps is appending the two at once. */
  lemma Regroup<E>(a: seq<E>, b: seq<E>, c: seq<E>)
    ensures a + b + c == a + (b + c)
  {
  }

  lemma Regroup3<E>(a: seq<E>, b: seq<E>, c: seq<E>, d: seq<E>)
    ensures a + b + c + d == a + (b + c + d)
  {
  }

  // One loop step over a field visits one more element.

  lemma ApplyPatternPartsStep(s: seq<PatternPart>, i: nat)
    requires i < |s|
    ensures ApplyPatternParts(s[..i + 1]) == ApplyPatternParts(s[..i]) + s[i].Apply()
  {
    assert s[..i + 1][..i] == s[..i];
  }

  lemma ApplyAttributesStep(s: seq<Attribute>, i: nat)
    requires i < |s|
    ensures ApplyAttributes(s[..i + 1]) == ApplyAttributes(s[..i]) + s[i].Apply()
  {
    assert s[..i + 1][..i] == s[..i];
  }

  lemma ApplyOptionsStep(s: seq<FnOrMarkupOption>, i: nat)
    requires i < |s|
    ensures ApplyOptions(s[..i + 1]) == ApplyOptions(s[..i]) + s[i].Apply()
  {
    assert s[..i + 1][..i] == s[..i];
  }

  lemma ApplyBodyPartsStep(s: seq<ReservedBodyPart>, i: nat)
    requires i < |s|
    ensures ApplyBodyParts(s[..i + 1]) == ApplyBodyParts(s[..i]) + s[i].Apply()
  {
    assert s[..i + 1][..i] == s[..i];
  }

  lemma ApplyQuotedPartsStep(s: seq<QuotedPart>, i: nat)
    requires i < |s|
    ensures ApplyQuotedParts(s[..i + 1]) == ApplyQuotedParts(s[..i]) + s[i].Apply()
  {
    assert s[..i + 1][..i] == s[..i];
  }

  lemma ApplyDeclarationsStep(s: seq<Declaration>, i: nat)
    requires i < |s|
    ensures ApplyDeclarations(s[..i + 1]) == ApplyDeclarations(s[..i]) + s[i].Apply()
  {
    assert s[..i + 1][..i] == s[..i];
  }

  lemma ApplyExpressionsStep(s: seq<Expression>, i: nat)
    requires i < |s|
    ensures ApplyExpressions(s[..i + 1]) == ApplyExpressions(s[..i]) + s[i].Apply()
  {
    assert s[..i + 1][..i] == s[..i];
  }

  lemma ApplyVariantsStep(s: seq<Variant>, i: nat)
    requires i < |s|
    ensures ApplyVariants(s[..i + 1]) == ApplyVariants(s[..i]) + s[i].Apply()
  {
    assert s[..i + 1][..i] == s[..i];
  }

  lemma ApplyKeysStep(s: seq<Key>, i: nat)
    requires i < |s|
    ensures ApplyKeys(s[..i + 1]) == ApplyKeys(s[..i]) + s[i].Apply()
  {
    assert s[..i + 1][..i] == s[..i];
  }

  class Tracer {
    /** The callbacks fired so far, in order. */
    var trace: seq<Event>

    constructor()
      ensures trace == []
    {
      trace := [];
    }

    /** `Message` fires no callback of its own: both operations go to the
        node it wraps. */
    method ApplyMessage(x: Message)
      modifies this
      ensures trace == old(trace) + x.Apply()
      decreases x
    {
      match x
      case Simple(p) => ApplyPattern(p);
      case Complex(c) => ApplyComplexMessage(c);
    }

    method ApplyMessageToChildren(x: Message)
      modifies this
      ensures trace == old(trace) + x.ApplyToChildren()
      decreases x
    {
      match x
      case Simple(p) => ApplyPatternToChildren(p);
      case Complex(c) => ApplyComplexMessageToChildren(c);
    }

    method ApplyPattern(x: Pattern)
      modifies this
      ensures trace == old(trace) + x.Apply()
      decreases x, 1
    {
      Regroup(trace, [VisitPattern], x.ApplyToChildren());
      trace := trace + [VisitPattern];
      ApplyPatternToChildren(x);
    }

    method ApplyPatternToChildren(x: Pattern)
      modifies this
      ensures trace == old(trace) + x.ApplyToChildren()
      decreases x, 0
    {
      ghost var before := trace;
      for i := 0 to |x.parts|
        invariant trace == before + ApplyPatternParts(x.parts[..i])
      {
        ApplyPatternPartsStep(x.parts, i);
        Regroup(before, ApplyPatternParts(x.parts[..i]), x.parts[i].Apply());
        ApplyPatternPart(x.parts[i]);
      }
      assert x.parts[..|x.parts|] == x.parts;
    }

    method ApplyPatternPart(x: PatternPart)
      modifies this
      ensures trace == old(trace) + x.Apply()
      decreases x, 1
    {
      Regroup(trace, [VisitPatternPart], x.ApplyToChildren());
      trace := trace + [VisitPatternPart];
      ApplyPatternPartToChildren(x);
    }

    method ApplyPatternPartToChildren(x: PatternPart)
      modifies this
      ensures trace == old(trace) + x.ApplyToChildren()
      decreases x, 0
    {
      match x
      case TextPart(y) => ApplyText(y);
      case EscapePart(y) => ApplyEscape(y);
      case ExpressionPart(y) => ApplyExpression(y);
      case MarkupPart(y) => ApplyMarkup(y);
    }

    method ApplyText(x: Text)
      modifies this
      ensures trace == old(trace) + x.Apply()
      decreases x, 1
    {
      Regroup(trace, [VisitText], x.ApplyToChildren());
      trace := trace + [VisitText];
      ApplyTextToChildren(x);
    }

    method ApplyTextToChildren(x: Text)
      modifies this
      ensures trace == old(trace) + x.ApplyToChildren()
      decreases x, 0
    {
    }

    method ApplyEscape(x: Escape)
      modifies this
      ensures trace == old(trace) + x.Apply()
      decreases x, 1
    {
      Regroup(trace, [VisitEscape], x.ApplyToChildren());
      trace := trace + [VisitEscape];
      ApplyEscapeToChildren(x);
    }

    method ApplyEscapeToChildren(x: Escape)
      modifies this
      ensures trace == old(trace) + x.ApplyToChildren()
      decreases x, 0
    {
    }

    method ApplyExpression(x: Expression)
      modifies this
      ensures trace == old(trace) + x.Apply()
      decreases x, 1
    {
      Regroup(trace, [VisitExpression], x.ApplyToChildren());
      trace := trace + [VisitExpression];
      ApplyExpressionToChildren(x);
    }

    method ApplyExpressionToChildren(x: Expression)
      modifies this
      ensures trace == old(trace) + x.ApplyToChildren()
      decreases x, 0
    {
      match x
      case LiteralExpr(y) => ApplyLiteralExpression(y);
      case VariableExpr(y) => ApplyVariableExpression(y);
      case AnnotationExpr(y) => ApplyAnnotationExpression(y);
    }

    method ApplyLiteralExpression(x: LiteralExpression)
      modifies this
      ensures trace == old(trace) + x.Apply()
      decreases x, 1
    {
      Regroup(trace, [VisitLiteralExpression], x.ApplyToChildren());
      trace := trace + [VisitLiteralExpression];
      ApplyLiteralExpressionToChildren(x);
    }

    method ApplyLiteralExpressionToChildren(x: LiteralExpression)
      modifies this
      ensures trace == old(trace) + x.ApplyToChildren()
      decreases x, 0
    {
      ghost var before := trace;
      ApplyLiteral(x.literal);
      if x.annotation.Some? {
        ApplyAnnotation(x.annotation.value);
      } else {
        assert trace == trace + [];
      }
      ghost var beforeAttributes := trace;
      for i := 0 to |x.attributes|
        invariant trace == beforeAttributes + ApplyAttributes(x.attributes[..i])
      {
        ApplyAttributesStep(x.attributes, i);
        Regroup(beforeAttributes, ApplyAttributes(x.attributes[..i]), x.attributes[i].Apply());
        ApplyAttribute(x.attributes[i]);
      }
      assert x.attributes[..|x.attributes|] == x.attributes;
      Regroup3(before, x.literal.Apply(), ApplyOptionalAnnotation(x.annotation), ApplyAttributes(x.attributes));
    }

    method ApplyVariableExpression(x: VariableExpression)
      modifies this
      ensures trace == old(trace) + x.Apply()
      decreases x, 1
    {
      Regroup(trace, [VisitVariableExpression], x.ApplyToChildren());
      trace := trace + [VisitVariableExpression];
      ApplyVariableExpressionToChildren(x);
    }

    method ApplyVariableExpressionToChildren(x: VariableExpression)
      modifies this
      ensures trace == old(trace) + x.ApplyToChildren()
      decreases x, 0
    {
      ghost var before := trace;
      ApplyVariable(x.variable);
      if x.annotation.Some? {
        ApplyAnnotation(x.annotation.value);
      } else {
        assert trace == trace + [];
      }
      ghost var beforeAttributes := trace;
      for i := 0 to |x.attributes|
        invariant trace == beforeAttributes + ApplyAttributes(x.attributes[..i])
      {
        ApplyAttributesStep(x.attributes, i);
        Regroup(beforeAttributes, ApplyAttributes(x.attributes[..i]), x.attributes[i].Apply());
        ApplyAttribute(x.attributes[i]);
      }
      assert x.attributes[..|x.attributes|] == x.attributes;
      Regroup3(before, x.variable.Apply(), ApplyOptionalAnnotation(x.annotation), ApplyAttributes(x.attributes));
    }

    method ApplyVariable(x: Variable)
      modifies this
      ensures trace == old(trace) + x.Apply()
      decreases x, 1
    {
      Regroup(trace, [VisitVariable], x.ApplyToChildren());
      trace := trace + [VisitVariable];
      ApplyVariableToChildren(x);
    }

    method ApplyVariableToChildren(x: Variable)
      modifies this
      ensures trace == old(trace) + x.ApplyToChildren()
      decreases x, 0
    {
    }

    method ApplyAnnotationExpression(x: AnnotationExpression)
      modifies this
      ensures trace == old(trace) + x.Apply()
      decreases x, 1
    {
      Regroup(trace, [VisitAnnotationExpression], x.ApplyToChildren());
      trace := trace + [VisitAnnotationExpression];
      ApplyAnnotationExpressionToChildren(x);
    }

    method ApplyAnnotationExpressionToChildren(x: AnnotationExpression)
      modifies this
      ensures trace == old(trace) + x.ApplyToChildren()
      decreases x, 0
    {
      ghost var before := trace;
      ApplyAnnotation(x.annotation);
      ghost var beforeAttributes := trace;
      for i := 0 to |x.attributes|
        invariant trace == beforeAttributes + ApplyAttributes(x.attributes[..i])
      {
        ApplyAttributesStep(x.attributes, i);
        Regroup(beforeAttributes, ApplyAttributes(x.attributes[..i]), x.attributes[i].Apply());
        ApplyAttribute(x.attributes[i]);
      }
      assert x.attributes[..|x.attributes|] == x.attributes;
      Regroup(before, x.annotation.Apply(), ApplyAttributes(x.attributes));
    }

    method ApplyAnnotation(x: Annotation)
      modifies this
      ensures trace == old(trace) + x.Apply()
      decreases x, 1
    {
      Regroup(trace, [VisitAnnotation], x.ApplyToChildren());
      trace := trace + [VisitAnnotation];
      ApplyAnnotationToChildren(x);
    }

    method ApplyAnnotationToChildren(x: Annotation)
      modifies this
      ensures trace == old(trace) + x.ApplyToChildren()
      decreases x, 0
    {
      match x
      case FunctionAnnotation(y) => ApplyFunction(y);
      case PrivateUse(y) => ApplyPrivateUseAnnotation(y);
      case Reserved(y) => ApplyReservedAnnotation(y);
    }

    method ApplyIdentifier(x: Identifier)
      modifies this
      ensures trace == old(trace) + x.Apply()
      decreases x, 1
    {
      Regroup(trace, [VisitIdentifier], x.ApplyToChildren());
      trace := trace + [VisitIdentifier];
      ApplyIdentifierToChildren(x);
    }

    method ApplyIdentifierToChildren(x: Identifier)
      modifies this
      ensures trace == old(trace) + x.ApplyToChildren()
      decreases x, 0
    {
    }

    method ApplyFunction(x: Function)
      modifies this
      ensures trace == old(trace) + x.Apply()
      decreases x, 1
    {
      Regroup(trace, [VisitFunction], x.ApplyToChildren());
      trace := trace + [VisitFunction];
      ApplyFunctionToChildren(x);
    }

    method ApplyFunctionToChildren(x: Function)
      modifies this
      ensures trace == old(trace) + x.ApplyToChildren()
      decreases x, 0
    {
      ghost var before := trace;
      ApplyIdentifier(x.id);
      ghost var beforeOptions := trace;
      for i := 0 to |x.options|
        invariant trace == beforeOptions + ApplyOptions(x.options[..i])
      {
        ApplyOptionsStep(x.options, i);
        Regroup(beforeOptions, ApplyOptions(x.options[..i]), x.options[i].Apply());
        ApplyFnOrMarkupOption(x.options[i]);
      }
      assert x.options[..|x.options|] == x.options;
      Regroup(before, x.id.Apply(), ApplyOptions(x.options));
    }

    method ApplyFnOrMarkupOption(x: FnOrMarkupOption)
      modifies this
      ensures trace == old(trace) + x.Apply()
      decreases x, 1
    {
      Regroup(trace, [VisitFnOrMarkupOption], x.ApplyToChildren());
      trace := trace + [VisitFnOrMarkupOption];
      ApplyFnOrMarkupOptionToChildren(x);
    }

    method ApplyFnOrMarkupOptionToChildren(x: FnOrMarkupOption)
      modifies this
      ensures trace == old(trace) + x.ApplyToChildren()
      decreases x, 0
    {
      ghost var before := trace;
      ApplyIdentifier(x.key);
      ApplyLiteralOrVariable(x.value);
      Regroup(before, x.key.Apply(), x.value.Apply());
    }

    method ApplyAttribute(x: Attribute)
      modifies this
      ensures trace == old(trace) + x.Apply()
      decreases x, 1
    {
      Regroup(trace, [VisitAttribute], x.ApplyToChildren());
      trace := trace + [VisitAttribute];
      ApplyAttributeToChildren(x);
    }

    method ApplyAttributeToChildren(x: Attribute)
      modifies this
      ensures trace == old(trace) + x.ApplyToChildren()
      decreases x, 0
    {
      ghost var before := trace;
      ApplyIdentifier(x.key);
      if x.value.Some? {
        ApplyLiteralOrVariable(x.value.value);
      } else {
        assert trace == trace + [];
      }
      Regroup(before, x.key.Apply(), (match x.value case Some(v) => v.Apply() case None => []));
    }

    method ApplyLiteralOrVariable(x: LiteralOrVariable)
      modifies this
      ensures trace == old(trace) + x.Apply()
      decreases x, 1
    {
      Regroup(trace, [VisitLiteralOrVariable], x.ApplyToChildren());
      trace := trace + [VisitLiteralOrVariable];
      ApplyLiteralOrVariableToChildren(x);
    }

    method ApplyLiteralOrVariableToChildren(x: LiteralOrVariable)
      modifies this
      ensures trace == old(trace) + x.ApplyToChildren()
      decreases x, 0
    {
      match x
      case LiteralValue(y) => ApplyLiteral(y);
      case VariableValue(y) => ApplyVariable(y);
    }

    method ApplyPrivateUseAnnotation(x: PrivateUseAnnotation)
      modifies this
      ensures trace == old(trace) + x.Apply()
      decreases x, 1
    {
      Regroup(trace, [VisitPrivateUseAnnotation], x.ApplyToChildren());
      trace := trace + [VisitPrivateUseAnnotation];
      ApplyPrivateUseAnnotationToChildren(x);
    }

    method ApplyPrivateUseAnnotationToChildren(x: PrivateUseAnnotation)
      modifies this
      ensures trace == old(trace) + x.ApplyToChildren()
      decreases x, 0
    {
      ghost var before := trace;
      for i := 0 to |x.body|
        invariant trace == before + ApplyBodyParts(x.body[..i])
      {
        ApplyBodyPartsStep(x.body, i);
        Regroup(before, ApplyBodyParts(x.body[..i]), x.body[i].Apply());
        ApplyReservedBodyPart(x.body[i]);
      }
      assert x.body[..|x.body|] == x.body;
    }

    method ApplyReservedAnnotation(x: ReservedAnnotation)
      modifies this
      ensures trace == old(trace) + x.Apply()
      decreases x, 1
    {
      Regroup(trace, [VisitReservedAnnotation], x.ApplyToChildren());
      trace := trace + [VisitReservedAnnotation];
      ApplyReservedAnnotationToChildren(x);
    }

    method ApplyReservedAnnotationToChildren(x: ReservedAnnotation)
      modifies this
      ensures trace == old(trace) + x.ApplyToChildren()
      decreases x, 0
    {
      ghost var before := trace;
      for i := 0 to |x.body|
        invariant trace == before + ApplyBodyParts(x.body[..i])
      {
        ApplyBodyPartsStep(x.body, i);
        Regroup(before, ApplyBodyParts(x.body[..i]), x.body[i].Apply());
        ApplyReservedBodyPart(x.body[i]);
      }
      assert x.body[..|x.body|] == x.body;
    }

    method ApplyReservedBodyPart(x: ReservedBodyPart)
      modifies this
      ensures trace == old(trace) + x.Apply()
      decreases x, 1
    {
      Regroup(trace, [VisitReservedBodyPart], x.ApplyToChildren());
      trace := trace + [VisitReservedBodyPart];
      ApplyReservedBodyPartToChildren(x);
    }

    method ApplyReservedBodyPartToChildren(x: ReservedBodyPart)
      modifies this
      ensures trace == old(trace) + x.ApplyToChildren()
      decreases x, 0
    {
      match x
      case BodyText(y) => ApplyText(y);
      case BodyEscape(y) => ApplyEscape(y);
      case BodyQuoted(y) => ApplyQuoted(y);
    }

    method ApplyLiteral(x: Literal)
      modifies this
      ensures trace == old(trace) + x.Apply()
      decreases x, 1
    {
      Regroup(trace, [VisitLiteral], x.ApplyToChildren());
      trace := trace + [VisitLiteral];
      ApplyLiteralToChildren(x);
    }

    method ApplyLiteralToChildren(x: Literal)
      modifies this
      ensures trace == old(trace) + x.ApplyToChildren()
      decreases x, 0
    {
      match x
      case QuotedLiteral(y) => ApplyQuoted(y);
      case TextLiteral(y) => ApplyText(y);
      case NumberLiteral(y) => ApplyNumber(y);
    }

    method ApplyQuoted(x: Quoted)
      modifies this
      ensures trace == old(trace) + x.Apply()
      decreases x, 1
    {
      Regroup(trace, [VisitQuoted], x.ApplyToChildren());
      trace := trace + [VisitQuoted];
      ApplyQuotedToChildren(x);
    }

    method ApplyQuotedToChildren(x: Quoted)
      modifies this
      ensures trace == old(trace) + x.ApplyToChildren()
      decreases x, 0
    {
      ghost var before := trace;
      for i := 0 to |x.parts|
        invariant trace == before + ApplyQuotedParts(x.parts[..i])
      {
        ApplyQuotedPartsStep(x.parts, i);
        Regroup(before, ApplyQuotedParts(x.parts[..i]), x.parts[i].Apply());
        ApplyQuotedPart(x.parts[i]);
      }
      assert x.parts[..|x.parts|] == x.parts;
    }

    method ApplyQuotedPart(x: QuotedPart)
      modifies this
      ensures trace == old(trace) + x.Apply()
      decreases x, 1
    {
      Regroup(trace, [VisitQuotedPart], x.ApplyToChildren());
      trace := trace + [VisitQuotedPart];
      ApplyQuotedPartToChildren(x);
    }

    method ApplyQuotedPartToChildren(x: QuotedPart)
      modifies this
      ensures trace == old(trace) + x.ApplyToChildren()
      decreases x, 0
    {
      match x
      case QuotedText(y) => ApplyText(y);
      case QuotedEscape(y) => ApplyEscape(y);
    }

    method ApplyNumber(x: Number)
      modifies this
      ensures trace == old(trace) + x.Apply()
      decreases x, 1
    {
      Regroup(trace, [VisitNumber], x.ApplyToChildren());
      trace := trace + [VisitNumber];
      ApplyNumberToChildren(x);
    }

    method ApplyNumberToChildren(x: Number)
      modifies this
      ensures trace == old(trace) + x.ApplyToChildren()
      decreases x, 0
    {
    }

    method ApplyMarkup(x: Markup)
      modifies this
      ensures trace == old(trace) + x.Apply()
      decreases x, 1
    {
      Regroup(trace, [VisitMarkup], x.ApplyToChildren());
      trace := trace + [VisitMarkup];
      ApplyMarkupToChildren(x);
    }

    method ApplyMarkupToChildren(x: Markup)
      modifies this
      ensures trace == old(trace) + x.ApplyToChildren()
      decreases x, 0
    {
      ghost var before := trace;
      ApplyIdentifier(x.id);
      ghost var beforeOptions := trace;
      for i := 0 to |x.options|
        invariant trace == beforeOptions + ApplyOptions(x.options[..i])
      {
        ApplyOptionsStep(x.options, i);
        Regroup(beforeOptions, ApplyOptions(x.options[..i]), x.options[i].Apply());
        ApplyFnOrMarkupOption(x.options[i]);
      }
      assert x.options[..|x.options|] == x.options;
      ghost var beforeAttributes := trace;
      for i := 0 to |x.attributes|
        invariant trace == beforeAttributes + ApplyAttributes(x.attributes[..i])
      {
        ApplyAttributesStep(x.attributes, i);
        Regroup(beforeAttributes, ApplyAttributes(x.attributes[..i]), x.attributes[i].Apply());
        ApplyAttribute(x.attributes[i]);
      }
      assert x.attributes[..|x.attributes|] == x.attributes;
      Regroup3(before, x.id.Apply(), ApplyOptions(x.options), ApplyAttributes(x.attributes));
    }

    method ApplyComplexMessage(x: ComplexMessage)
      modifies this
      ensures trace == old(trace) + x.Apply()
      decreases x, 1
    {
      Regroup(trace, [VisitComplexMessage], x.ApplyToChildren());
      trace := trace + [VisitComplexMessage];
      ApplyComplexMessageToChildren(x);
    }

    method ApplyComplexMessageToChildren(x: ComplexMessage)
      modifies this
      ensures trace == old(trace) + x.ApplyToChildren()
      decreases x, 0
    {
      ghost var before := trace;
      for i := 0 to |x.declarations|
        invariant trace == before + ApplyDeclarations(x.declarations[..i])
      {
        ApplyDeclarationsStep(x.declarations, i);
        Regroup(before, ApplyDeclarations(x.declarations[..i]), x.declarations[i].Apply());
        ApplyDeclaration(x.declarations[i]);
      }
      assert x.declarations[..|x.declarations|] == x.declarations;
      ApplyComplexMessageBody(x.body);
      Regroup(before, ApplyDeclarations(x.declarations), x.body.Apply());
    }

    method ApplyDeclaration(x: Declaration)
      modifies this
      ensures trace == old(trace) + x.Apply()
      decreases x, 1
    {
      Regroup(trace, [VisitDeclaration], x.ApplyToChildren());
      trace := trace + [VisitDeclaration];
      ApplyDeclarationToChildren(x);
    }

    method ApplyDeclarationToChildren(x: Declaration)
      modifies this
      ensures trace == old(trace) + x.ApplyToChildren()
      decreases x, 0
    {
      match x
      case InputDecl(y) => ApplyInputDeclaration(y);
      case LocalDecl(y) => ApplyLocalDeclaration(y);
      case ReservedDecl(y) => ApplyReservedStatement(y);
    }

    method ApplyInputDeclaration(x: InputDeclaration)
      modifies this
      ensures trace == old(trace) + x.Apply()
      decreases x, 1
    {
      Regroup(trace, [VisitInputDeclaration], x.ApplyToChildren());
      trace := trace + [VisitInputDeclaration];
      ApplyInputDeclarationToChildren(x);
    }

    method ApplyInputDeclarationToChildren(x: InputDeclaration)
      modifies this
      ensures trace == old(trace) + x.ApplyToChildren()
      decreases x, 0
    {
      ApplyVariableExpression(x.expression);
    }

    method ApplyLocalDeclaration(x: LocalDeclaration)
      modifies this
      ensures trace == old(trace) + x.Apply()
      decreases x, 1
    {
      Regroup(trace, [VisitLocalDeclaration], x.ApplyToChildren());
      trace := trace + [VisitLocalDeclaration];
      ApplyLocalDeclarationToChildren(x);
    }

    method ApplyLocalDeclarationToChildren(x: LocalDeclaration)
      modifies this
      ensures trace == old(trace) + x.ApplyToChildren()
      decreases x, 0
    {
      ghost var before := trace;
      ApplyVariable(x.variable);
      ApplyExpression(x.expression);
      Regroup(before, x.variable.Apply(), x.expression.Apply());
    }

    method ApplyReservedStatement(x: ReservedStatement)
      modifies this
      ensures trace == old(trace) + x.Apply()
      decreases x, 1
    {
      Regroup(trace, [VisitReservedStatement], x.ApplyToChildren());
      trace := trace + [VisitReservedStatement];
      ApplyReservedStatementToChildren(x);
    }

    method ApplyReservedStatementToChildren(x: ReservedStatement)
      modifies this
      ensures trace == old(trace) + x.ApplyToChildren()
      decreases x, 0
    {
      ghost var before := trace;
      for i := 0 to |x.body|
        invariant trace == before + ApplyBodyParts(x.body[..i])
      {
        ApplyBodyPartsStep(x.body, i);
        Regroup(before, ApplyBodyParts(x.body[..i]), x.body[i].Apply());
        ApplyReservedBodyPart(x.body[i]);
      }
      assert x.body[..|x.body|] == x.body;
      ghost var beforeExpressions := trace;
      for i := 0 to |x.expressions|
        invariant trace == beforeExpressions + ApplyExpressions(x.expressions[..i])
      {
        ApplyExpressionsStep(x.expressions, i);
        Regroup(beforeExpressions, ApplyExpressions(x.expressions[..i]), x.expressions[i].Apply());
        ApplyExpression(x.expressions[i]);
      }
      assert x.expressions[..|x.expressions|] == x.expressions;
      Regroup(before, ApplyBodyParts(x.body), ApplyExpressions(x.expressions));
    }

    method ApplyComplexMessageBody(x: ComplexMessageBody)
      modifies this
      ensures trace == old(trace) + x.Apply()
      decreases x, 1
    {
      Regroup(trace, [VisitComplexMessageBody], x.ApplyToChildren());
      trace := trace + [VisitComplexMessageBody];
      ApplyComplexMessageBodyToChildren(x);
    }

    method ApplyComplexMessageBodyToChildren(x: ComplexMessageBody)
      modifies this
      ensures trace == old(trace) + x.ApplyToChildren()
      decreases x, 0
    {
      match x
      case QuotedPatternBody(y) => ApplyQuotedPattern(y);
      case MatcherBody(y) => ApplyMatcher(y);
    }

    method ApplyQuotedPattern(x: QuotedPattern)
      modifies this
      ensures trace == old(trace) + x.Apply()
      decreases x, 1
    {
      Regroup(trace, [VisitQuotedPattern], x.ApplyToChildren());
      trace := trace + [VisitQuotedPattern];
      ApplyQuotedPatternToChildren(x);
    }

    method ApplyQuotedPatternToChildren(x: QuotedPattern)
      modifies this
      ensures trace == old(trace) + x.ApplyToChildren()
      decreases x, 0
    {
      ApplyPattern(x.pattern);
    }

    method ApplyMatcher(x: Matcher)
      modifies this
      ensures trace == old(trace) + x.Apply()
      decreases x, 1
    {
      Regroup(trace, [VisitMatcher], x.ApplyToChildren());
      trace := trace + [VisitMatcher];
      ApplyMatcherToChildren(x);
    }

    method ApplyMatcherToChildren(x: Matcher)
      modifies this
      ensures trace == old(trace) + x.ApplyToChildren()
      decreases x, 0
    {
      ghost var before := trace;
      for i := 0 to |x.selectors|
        invariant trace == before + ApplyExpressions(x.selectors[..i])
      {
        ApplyExpressionsStep(x.selectors, i);
        Regroup(before, ApplyExpressions(x.selectors[..i]), x.selectors[i].Apply());
        ApplyExpression(x.selectors[i]);
      }
      assert x.selectors[..|x.selectors|] == x.selectors;
      ghost var beforeVariants := trace;
      for i := 0 to |x.variants|
        invariant trace == beforeVariants + ApplyVariants(x.variants[..i])
      {
        ApplyVariantsStep(x.variants, i);
        Regroup(beforeVariants, ApplyVariants(x.variants[..i]), x.variants[i].Apply());
        ApplyVariant(x.variants[i]);
      }
      assert x.variants[..|x.variants|] == x.variants;
      Regroup(before, ApplyExpressions(x.selectors), ApplyVariants(x.variants));
    }

    method ApplyVariant(x: Variant)
      modifies this
      ensures trace == old(trace) + x.Apply()
      decreases x, 1
    {
      Regroup(trace, [VisitVariant], x.ApplyToChildren());
      trace := trace + [VisitVariant];
      ApplyVariantToChildren(x);
    }

    method ApplyVariantToChildren(x: Variant)
      modifies this
      ensures trace == old(trace) + x.ApplyToChildren()
      decreases x, 0
    {
      ghost var before := trace;
      for i := 0 to |x.keys|
        invariant trace == before + ApplyKeys(x.keys[..i])
      {
        ApplyKeysStep(x.keys, i);
        Regroup(before, ApplyKeys(x.keys[..i]), x.keys[i].Apply());
        ApplyKey(x.keys[i]);
      }
      assert x.keys[..|x.keys|] == x.keys;
      ApplyQuotedPattern(x.pattern);
      Regroup(before, ApplyKeys(x.keys), x.pattern.Apply());
    }

    method ApplyKey(x: Key)
      modifies this
      ensures trace == old(trace) + x.Apply()
      decreases x, 1
    {
      Regroup(trace, [VisitKey], x.ApplyToChildren());
      trace := trace + [VisitKey];
      ApplyKeyToChildren(x);
    }

    method ApplyKeyToChildren(x: Key)
      modifies this
      ensures trace == old(trace) + x.ApplyToChildren()
      decreases x, 0
    {
      match x
      case LiteralKey(y) => ApplyLiteral(y);
      case StarKey(y) => ApplyStar(y);
    }

    method ApplyStar(x: Star)
      modifies this
      ensures trace == old(trace) + x.Apply()
      decreases x, 1
    {
      Regroup(trace, [VisitStar], x.ApplyToChildren());
      trace := trace + [VisitStar];
      ApplyStarToChildren(x);
    }

    method ApplyStarToChildren(x: Star)
      modifies this
      ensures trace == old(trace) + x.ApplyToChildren()
      decreases x, 0
    {
    }
  }
}
