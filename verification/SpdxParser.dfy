/** The parser object: it advances one offset through its tokens and raises on the first token that cannot be read. */
module SpdxParser {
  import opened SpdxGrammar
  import opened SpdxText

  class Parser {
    const tokens: seq<string>
    var offset: nat

    constructor (tokens: seq<string>)
      ensures this.tokens == tokens && offset == 0
    {
      this.tokens, offset := tokens, 0;
    }

    ghost predicate Valid()
      reads this
    {
      offset <= |tokens|
    }

    predicate Sees(kind: Kind)
      reads this
    {
      At(tokens, offset, kind)
    }

    /** Whether this parse ended as the specification reads: in the same fault, or behind the same tree. */
    ghost predicate Ended(r: Outcome<()>, spec: Parsed)
      reads this
    {
      Valid() && match spec
      case Parsed(_, next) => r.Ok? && offset == next
      case Failed(fault) => r == Raised(fault)
    }

    method Take() returns (r: Outcome<string>)
      requires Valid()
      modifies this
      ensures Valid() && (r.Ok? <==> old(offset) < |tokens|)
      ensures r.Ok? ==> offset == old(offset) + 1 && r.value == tokens[old(offset)]
      ensures r.Raised? ==> offset == old(offset) && r.fault == Invalid
    {
      if offset == |tokens| {
        return Raised(Invalid);
      }
      offset := offset + 1;
      return Ok(tokens[offset - 1]);
    }

    method ParseAll() returns (r: Outcome<()>)
      requires Valid() && offset == 0
      modifies this
      ensures match Parse(tokens) case Parsed(_, _) => r.Ok? case Failed(fault) => r == Raised(fault)
    {
      hide ExpressionAt;
      r := ParseOr();
      if r.Ok? && offset != |tokens| {
        r := Raised(Invalid);
      }
    }

    method ParseOr() returns (r: Outcome<()>)
      requires Valid()
      modifies this
      ensures Ended(r, ExpressionAt(tokens, old(offset)))
      decreases |tokens| - offset, 3
    {
      hide ConjunctionAt, KindOf;
      ghost var start := offset;
      ghost var tree := ConjunctionAt(tokens, offset);
      r := ParseAnd();
      if r.Raised? {
        return;
      }
      while Sees(OrToken)
        invariant Valid() && offset > start && r.Ok? && tree.Parsed?
        invariant ExpressionAt(tokens, start) == MoreDisjuncts(tokens, tree.tree, offset)
        decreases |tokens| - offset
      {
        var operator := Take();
        ghost var next := ConjunctionAt(tokens, offset);
        r := ParseAnd();
        if r.Raised? {
          return;
        }
        tree := Parsed(Or(tree.tree, next.tree), offset);
      }
    }

    method ParseAnd() returns (r: Outcome<()>)
      requires Valid()
      modifies this
      ensures Ended(r, ConjunctionAt(tokens, old(offset)))
      decreases |tokens| - offset, 2
    {
      hide LicensedAt, KindOf;
      ghost var start := offset;
      ghost var tree := LicensedAt(tokens, offset);
      r := ParseWith();
      if r.Raised? {
        return;
      }
      while Sees(AndToken)
        invariant Valid() && offset > start && r.Ok? && tree.Parsed?
        invariant ConjunctionAt(tokens, start) == MoreConjuncts(tokens, tree.tree, offset)
        decreases |tokens| - offset
      {
        var operator := Take();
        ghost var next := LicensedAt(tokens, offset);
        r := ParseWith();
        if r.Raised? {
          return;
        }
        tree := Parsed(And(tree.tree, next.tree), offset);
      }
    }

    method ParseWith() returns (r: Outcome<()>)
      requires Valid()
      modifies this
      ensures Ended(r, LicensedAt(tokens, old(offset)))
      decreases |tokens| - offset, 1
    {
      hide PrimaryAt, KindOf;
      r := ParsePrimary();
      if r.Raised? || !Sees(WithToken) {
        return;
      }
      var operator := Take();
      var exception := Take();
      if exception.Raised? || !IsException(exception.value) {
        r := Raised(Invalid);
      }
    }

    method ParsePrimary() returns (r: Outcome<()>)
      requires Valid()
      modifies this
      ensures Ended(r, PrimaryAt(tokens, old(offset)))
      decreases |tokens| - offset, 0
    {
      hide ExpressionAt, KindOf;
      var token := Take();
      if token.Raised? {
        return Raised(Invalid);
      }
      match KindOf(token.value) {
        case OpenToken =>
          r := ParseOr();
          if r.Raised? {
            return;
          }
          var close := Take();
          if close.Raised? || !KindOf(close.value).CloseToken? {
            r := Raised(Invalid);
          }
        case UnknownToken =>
          r := Raised(Unknown);
        case WordToken =>
          r := Ok(());
        case _ =>
          r := Raised(Invalid);
      }
    }
  }

  /** `canonical_license_expression` as it runs. */
  method CanonicalLicense(value: string) returns (r: Outcome<string>)
    ensures r == Canonical(value)
  {
    hide Parse, Rendered, Words, IsSafe;
    if !IsSafe(value) {
      return Raised(Unsafe);
    }
    var tokens := Tokenize(value);
    if tokens.Raised? {
      return Raised(tokens.fault);
    }
    var parser := new Parser(tokens.value);
    var parsed := parser.ParseAll();
    if parsed.Raised? {
      return Raised(parsed.fault);
    }
    var rendered := Render(tokens.value);
    if rendered != value {
      return Raised(NonCanonical);
    }
    return Ok(value);
  }
}
