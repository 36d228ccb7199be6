/** `parse_expression` of main.py: a prefix evaluator for process-spaces
    ("triuth") expressions over the three values 'r', 'g', 'e', together with
    the Python booleans that the tests `robust`, `[=`, `==`, `not`, `equiv`
    produce. It returns the value and the index just past the expression. */
module Triuth {
  import opened Results

  /** The Python values an expression can take. */
  datatype Val = R | G | E | B(b: bool)

  /** The exceptions `parse_expression` can raise: an index past the end of
      the token list, a name missing from `mapping`, and `>=` between a
      string and a boolean. */
  datatype PyError = IndexError | KeyError | TypeError

  predicate IsRge(v: Val) {
    v == R || v == G || v == E
  }

  /** Python truthiness: the three strings are non-empty, hence true. */
  predicate Truthy(v: Val) {
    if v.B? then v.b else true
  }

  // ---------- The operator tables, each written as the source's chain of overrides ----------

  function Neg(arg: Val): Val {
    var result := G;
    var result := if arg == R then E else result;
    if arg == E then R else result
  }

  function Slash(arg: Val): Val {
    var result := E;
    var result := if arg == R then G else result;
    if arg == E then R else result
  }

  function Robust(arg: Val): Val {
    B(arg != R)
  }

  /** `||`. */
  function Par(left: Val, right: Val): Val {
    var result := E;
    var result := if left == R && right != E then R else result;
    var result := if left != E && right == R then R else result;
    if left == G && right == G then G else result
  }

  function Oplus(left: Val, right: Val): Val {
    var result := R;
    var result := if left == E && right != R then E else result;
    var result := if left != R && right == E then E else result;
    if left == G && right == G then G else result
  }

  function Meet(left: Val, right: Val): Val {
    var result := G;
    var result := if left == E && right != G then E else result;
    var result := if left != G && right == E then E else result;
    if left == R && right == R then R else result
  }

  function JoinVal(left: Val, right: Val): Val {
    var result := G;
    var result := if left == R && right != G then R else result;
    var result := if left != G && right == R then R else result;
    if left == E && right == E then E else result
  }

  function Lpop(left: Val, right: Val): Val {
    var result := E;
    var result := if left == E && right != E then R else result;
    var result := if left != R && right == R then R else result;
    if left == G && right == G then G else result
  }

  /** Python's `'e' < 'g' < 'r'` string order, as a rank. */
  function Rank(v: Val): nat
    requires IsRge(v)
  {
    if v == E then 0 else if v == G then 1 else 2
  }

  /** `left >= right`: strings by their order, booleans as 0 and 1, and a
      `TypeError` between a string and a boolean. */
  function Ge(left: Val, right: Val): Result<Val, PyError> {
    if left.B? && right.B? then Ok(B(left.b || !right.b))
    else if left.B? || right.B? then Err(TypeError)
    else Ok(B(Rank(left) >= Rank(right)))
  }

  /** The one-operand operators. */
  datatype UnOp = NegOp | SlashOp | RobustOp | NotOp

  /** The two-operand operators: the `||` group, then the logical ones. */
  datatype BinOp =
    | ParOp | GeOp | EqOp | OplusOp | MeetOp | JoinOp | LpopOp
    | AndOp | OrOp | ImpliesOp | EquivOp

  function Unary(op: UnOp, arg: Val): Val {
    match op
    case NegOp => Neg(arg)
    case SlashOp => Slash(arg)
    case RobustOp => Robust(arg)
    case NotOp => B(!Truthy(arg))
  }

  /** A two-operand operator applied to its operands' values; `and`, `or`
      return one of their operands, as Python does, and `implies` is
      `not left or right`. */
  function Apply2(op: BinOp, left: Val, right: Val): Result<Val, PyError> {
    match op
    case ParOp => Ok(Par(left, right))
    case GeOp => Ge(left, right)
    case EqOp => Ok(B(left == right))
    case OplusOp => Ok(Oplus(left, right))
    case MeetOp => Ok(Meet(left, right))
    case JoinOp => Ok(JoinVal(left, right))
    case LpopOp => Ok(Lpop(left, right))
    case AndOp => Ok(if Truthy(left) then right else left)
    case OrOp => Ok(if Truthy(left) then left else right)
    case ImpliesOp => Ok(if !Truthy(left) then B(true) else right)
    case EquivOp => Ok(B(left == right))
  }

  const UnaryTokens: set<string> := {"-", "/", "robust"}
  const BinaryTokens: set<string> := {"||", "[=", "==", "oplus", "meet", "join", "lpop"}
  const LogicTokens: set<string> := {"and", "or", "implies", "equiv"}
  const ConstantTokens: set<string> := {"top", "bot", "phi"}

  /** Every token `parse_expression` treats as an operator or a constant. */
  const Keywords: set<string> := UnaryTokens + {"not"} + BinaryTokens + LogicTokens + ConstantTokens

  /** How `parse_expression` reads a token, tested in its order. */
  datatype TokenKind = OneOperand(un: UnOp) | TwoOperands(bin: BinOp) | ConstantToken(value: Val) | NameToken

  function KindOf(token: string): TokenKind {
    if token in UnaryTokens then
      OneOperand(if token == "-" then NegOp else if token == "/" then SlashOp else RobustOp)
    else if token == "not" then OneOperand(NotOp)
    else if token in BinaryTokens then
      TwoOperands(
        if token == "||" then ParOp else if token == "[=" then GeOp else if token == "==" then EqOp
        else if token == "oplus" then OplusOp else if token == "meet" then MeetOp
        else if token == "join" then JoinOp else LpopOp)
    else if token in LogicTokens then
      TwoOperands(if token == "and" then AndOp else if token == "or" then OrOp else if token == "implies" then ImpliesOp else EquivOp)
    else if token in ConstantTokens then
      ConstantToken(if token == "top" then E else if token == "bot" then R else G)
    else NameToken
  }

  /** A token is read as a name exactly when it is not a keyword. */
  lemma NameIffNotKeyword(token: string)
    ensures KindOf(token) == NameToken <==> token !in Keywords
  {
  }

  // ---------- parse_expression ----------

  /** How `parse_expression` reads a token and applies an operator: the
      token classification and the two operator tables. The parser is
      written over a reading; `Python` is the one main.py hard-codes, and
      the facts about parsing below hold for every reading. */
  datatype Reading = Reading(
    kind: string -> TokenKind,
    un: (UnOp, Val) -> Val,
    bin: (BinOp, Val, Val) -> Result<Val, PyError>)

  const Python: Reading := Reading(KindOf, Unary, Apply2)

  /** `Python` reads with `KindOf`, `Unary` and `Apply2`. */
  lemma PythonReading(token: string, u: UnOp, v: Val, b: BinOp, x: Val, y: Val)
    ensures Python.kind(token) == KindOf(token)
    ensures Python.un(u, v) == Unary(u, v) && Python.bin(b, x, y) == Apply2(b, x, y)
  {
  }

  /** The recursion of `parse_expression` under reading `rd`: the value and
      the index just past the expression, or the exception raised. Every
      successful parse consumes at least one token and stays in the list. */
  function Parse(rd: Reading, tokens: seq<string>, start: nat, mapping: map<string, Val>): (r: Result<(Val, nat), PyError>)
    ensures r.Ok? ==> start < r.value.1 <= |tokens|
    decreases |tokens| - start
  {
    if start >= |tokens| then Err(IndexError)
    else
      var token := tokens[start];
      match rd.kind(token)
      case OneOperand(op) =>
        (match Parse(rd, tokens, start + 1, mapping)
         case Err(e) => Err(e)
         case Ok((arg, end)) => Ok((rd.un(op, arg), end)))
      case TwoOperands(op) =>
        (match Parse(rd, tokens, start + 1, mapping)
         case Err(e) => Err(e)
         case Ok((left, leftEnd)) =>
           match Parse(rd, tokens, leftEnd, mapping)
           case Err(e) => Err(e)
           case Ok((right, rightEnd)) =>
             match rd.bin(op, left, right)
             case Err(e) => Err(e)
             case Ok(v) => Ok((v, rightEnd)))
      case ConstantToken(v) => Ok((v, start + 1))
      case NameToken => if token in mapping then Ok((mapping[token], start + 1)) else Err(KeyError)
  }

  /** `parse_expression(expression, start_ix, mapping)`. */
  function ParseExpression(tokens: seq<string>, start: nat, mapping: map<string, Val>): Result<(Val, nat), PyError> {
    Parse(Python, tokens, start, mapping)
  }

  // ---------- Expressions as trees, and what they mean ----------

  /** A process-spaces expression: a name, a constant, a unary or a binary
      application, each holding its token and what that token denotes. */
  datatype Term =
    | Name(name: string)
    | Constant(token: string, value: Val)
    | Un(op: string, un: UnOp, arg: Term)
    | Bin(op: string, bin: BinOp, left: Term, right: Term)

  /** Every token of `t` is read as the node that holds it. */
  predicate WellFormed(rd: Reading, t: Term) {
    match t
    case Name(n) => rd.kind(n) == NameToken
    case Constant(c, v) => rd.kind(c) == ConstantToken(v)
    case Un(op, u, a) => rd.kind(op) == OneOperand(u) && WellFormed(rd, a)
    case Bin(op, b, l, r) => rd.kind(op) == TwoOperands(b) && WellFormed(rd, l) && WellFormed(rd, r)
  }

  /** The token list of an expression in prefix form. */
  function Prefix(t: Term): seq<string> {
    match t
    case Name(n) => [n]
    case Constant(c, _) => [c]
    case Un(op, _, a) => [op] + Prefix(a)
    case Bin(op, _, l, r) => [op] + Prefix(l) + Prefix(r)
  }

  /** The value of an expression: operands first, left before right; an
      unbound name raises `KeyError`. */
  function Eval(rd: Reading, t: Term, mapping: map<string, Val>): Result<Val, PyError> {
    match t
    case Name(n) => if n in mapping then Ok(mapping[n]) else Err(KeyError)
    case Constant(_, v) => Ok(v)
    case Un(_, u, a) =>
      (match Eval(rd, a, mapping)
       case Err(e) => Err(e)
       case Ok(v) => Ok(rd.un(u, v)))
    case Bin(_, b, l, r) =>
      match Eval(rd, l, mapping)
      case Err(e) => Err(e)
      case Ok(lv) =>
        match Eval(rd, r, mapping)
        case Err(e) => Err(e)
        case Ok(rv) => rd.bin(b, lv, rv)
  }

  /** What reading an expression that ends at `end` returns: its value
      and `end`, or the exception its evaluation raises. */
  function Outcome(value: Result<Val, PyError>, end: nat): Result<(Val, nat), PyError> {
    match value
    case Err(e) => Err(e)
    case Ok(v) => Ok((v, end))
  }

  /** One step of `parse_expression` at a unary operator. */
  lemma ParseUnaryStep(rd: Reading, tokens: seq<string>, start: nat, mapping: map<string, Val>)
    requires start < |tokens| && rd.kind(tokens[start]).OneOperand?
    ensures Parse(rd, tokens, start, mapping)
         == match Parse(rd, tokens, start + 1, mapping)
            case Err(e) => Err(e)
            case Ok((arg, end)) => Ok((rd.un(rd.kind(tokens[start]).un, arg), end))
  {
  }

  /** One step of `parse_expression` at a binary operator whose left
      operand raises. */
  lemma ParseBinaryLeftErr(rd: Reading, tokens: seq<string>, start: nat, mapping: map<string, Val>, e: PyError)
    requires start < |tokens| && rd.kind(tokens[start]).TwoOperands?
    requires Parse(rd, tokens, start + 1, mapping) == Err(e)
    ensures Parse(rd, tokens, start, mapping) == Err(e)
  {
  }

  /** One step of `parse_expression` at a binary operator whose right
      operand raises. */
  lemma ParseBinaryRightErr(rd: Reading, tokens: seq<string>, start: nat, mapping: map<string, Val>, left: Val, leftEnd: nat, e: PyError)
    requires start < |tokens| && rd.kind(tokens[start]).TwoOperands?
    requires Parse(rd, tokens, start + 1, mapping) == Ok((left, leftEnd))
    requires Parse(rd, tokens, leftEnd, mapping) == Err(e)
    ensures Parse(rd, tokens, start, mapping) == Err(e)
  {
  }

  /** One step of `parse_expression` at a binary operator whose operands
      both parse: the operator is applied to their values. */
  lemma ParseBinaryOk(rd: Reading, tokens: seq<string>, start: nat, mapping: map<string, Val>, left: Val, leftEnd: nat, right: Val, rightEnd: nat)
    requires start < |tokens| && rd.kind(tokens[start]).TwoOperands?
    requires Parse(rd, tokens, start + 1, mapping) == Ok((left, leftEnd))
    requires Parse(rd, tokens, leftEnd, mapping) == Ok((right, rightEnd))
    ensures Parse(rd, tokens, start, mapping) == Outcome(rd.bin(rd.kind(tokens[start]).bin, left, right), rightEnd)
  {
  }

  /** `parse_expression` reads exactly one prefix expression: started where
      the expression's tokens begin, it returns the expression's value (or
      its exception) and the index just past it, whatever follows. Names and
      constants take one token, a unary operator one sub-expression, a binary
      operator two. */
  lemma {:induction false} ParsePrefix(rd: Reading, t: Term, tokens: seq<string>, start: nat, mapping: map<string, Val>)
    requires WellFormed(rd, t)
    requires start + |Prefix(t)| <= |tokens| && tokens[start..start + |Prefix(t)|] == Prefix(t)
    ensures Parse(rd, tokens, start, mapping) == Outcome(Eval(rd, t, mapping), start + |Prefix(t)|)
    decreases t, 2
  {
    match t
    case Name(_) => ParsePrefixLeaf(rd, t, tokens, start, mapping);
    case Constant(_, _) => ParsePrefixLeaf(rd, t, tokens, start, mapping);
    case Un(op, u, a) => ParsePrefixUn(rd, op, u, a, tokens, start, mapping);
    case Bin(op, b, l, r) => ParsePrefixBin(rd, op, b, l, r, tokens, start, mapping);
  }

  lemma ParsePrefixLeaf(rd: Reading, t: Term, tokens: seq<string>, start: nat, mapping: map<string, Val>)
    requires WellFormed(rd, t) && (t.Name? || t.Constant?)
    requires start + |Prefix(t)| <= |tokens| && tokens[start..start + |Prefix(t)|] == Prefix(t)
    ensures Parse(rd, tokens, start, mapping) == Outcome(Eval(rd, t, mapping), start + |Prefix(t)|)
  {
    assert tokens[start] == tokens[start..start + 1][0];
  }

  lemma {:induction false} ParsePrefixUn(rd: Reading, op: string, u: UnOp, a: Term, tokens: seq<string>, start: nat, mapping: map<string, Val>)
    requires WellFormed(rd, Un(op, u, a))
    requires start + |Prefix(Un(op, u, a))| <= |tokens| && tokens[start..start + |Prefix(Un(op, u, a))|] == Prefix(Un(op, u, a))
    ensures Parse(rd, tokens, start, mapping) == Outcome(Eval(rd, Un(op, u, a), mapping), start + |Prefix(Un(op, u, a))|)
    decreases Un(op, u, a), 0
  {
    var n := |Prefix(Un(op, u, a))|;
    var m := |Prefix(a)|;
    assert tokens[start] == tokens[start..start + n][0];
    assert tokens[start + 1..start + 1 + m] == tokens[start..start + n][1..];
    ParsePrefix(rd, a, tokens, start + 1, mapping);
    ParseUnaryStep(rd, tokens, start, mapping);
  }

  lemma {:induction false} ParsePrefixBin(rd: Reading, op: string, b: BinOp, l: Term, r: Term, tokens: seq<string>, start: nat, mapping: map<string, Val>)
    requires WellFormed(rd, Bin(op, b, l, r))
    requires start + |Prefix(Bin(op, b, l, r))| <= |tokens| && tokens[start..start + |Prefix(Bin(op, b, l, r))|] == Prefix(Bin(op, b, l, r))
    ensures Parse(rd, tokens, start, mapping) == Outcome(Eval(rd, Bin(op, b, l, r), mapping), start + |Prefix(Bin(op, b, l, r))|)
    decreases Bin(op, b, l, r), 1
  {
    assert Prefix(Bin(op, b, l, r)) == [op] + Prefix(l) + Prefix(r);
    SplitWindow(tokens, start, op, Prefix(l), Prefix(r));
    ParsePrefix(rd, l, tokens, start + 1, mapping);
    if Eval(rd, l, mapping).Err? {
      ParseBinaryLeft(rd, op, b, l, r, tokens, start, mapping);
    } else {
      ParsePrefixBinRight(rd, op, b, l, r, tokens, start, mapping);
    }
  }

  /** The binary case once the left operand has been read successfully. */
  lemma {:induction false} ParsePrefixBinRight(rd: Reading, op: string, b: BinOp, l: Term, r: Term, tokens: seq<string>, start: nat, mapping: map<string, Val>)
    requires WellFormed(rd, Bin(op, b, l, r)) && Eval(rd, l, mapping).Ok?
    requires start + 1 + |Prefix(l)| + |Prefix(r)| <= |tokens| && tokens[start] == op
    requires tokens[start + 1 + |Prefix(l)|..start + 1 + |Prefix(l)| + |Prefix(r)|] == Prefix(r)
    requires Parse(rd, tokens, start + 1, mapping) == Outcome(Eval(rd, l, mapping), start + 1 + |Prefix(l)|)
    ensures Parse(rd, tokens, start, mapping) == Outcome(Eval(rd, Bin(op, b, l, r), mapping), start + |Prefix(Bin(op, b, l, r))|)
    decreases Bin(op, b, l, r), 0
  {
    ParsePrefix(rd, r, tokens, start + 1 + |Prefix(l)|, mapping);
    ParseBinaryRight(rd, op, b, l, r, tokens, start, mapping);
  }

  /** The binary case when the left operand raises. */
  lemma ParseBinaryLeft(rd: Reading, op: string, b: BinOp, l: Term, r: Term, tokens: seq<string>, start: nat, mapping: map<string, Val>)
    requires rd.kind(op) == TwoOperands(b)
    requires start < |tokens| && tokens[start] == op && Eval(rd, l, mapping).Err?
    requires Parse(rd, tokens, start + 1, mapping) == Outcome(Eval(rd, l, mapping), start + 1 + |Prefix(l)|)
    ensures Parse(rd, tokens, start, mapping) == Outcome(Eval(rd, Bin(op, b, l, r), mapping), start + |Prefix(Bin(op, b, l, r))|)
  {
    ParseBinaryLeftErr(rd, tokens, start, mapping, Eval(rd, l, mapping).error);
  }

  /** The binary case once the left operand has been read: the right one
      is read from where the left one ends. */
  lemma ParseBinaryRight(rd: Reading, op: string, b: BinOp, l: Term, r: Term, tokens: seq<string>, start: nat, mapping: map<string, Val>)
    requires rd.kind(op) == TwoOperands(b)
    requires start < |tokens| && tokens[start] == op && Eval(rd, l, mapping).Ok?
    requires Parse(rd, tokens, start + 1, mapping) == Outcome(Eval(rd, l, mapping), start + 1 + |Prefix(l)|)
    requires Parse(rd, tokens, start + 1 + |Prefix(l)|, mapping) == Outcome(Eval(rd, r, mapping), start + 1 + |Prefix(l)| + |Prefix(r)|)
    ensures Parse(rd, tokens, start, mapping) == Outcome(Eval(rd, Bin(op, b, l, r), mapping), start + |Prefix(Bin(op, b, l, r))|)
  {
    if Eval(rd, r, mapping).Err? {
      ParseBinaryRightRaises(rd, op, b, l, r, tokens, start, mapping);
    } else {
      ParseBinaryBoth(rd, op, b, l, r, tokens, start, mapping);
    }
  }

  lemma ParseBinaryRightRaises(rd: Reading, op: string, b: BinOp, l: Term, r: Term, tokens: seq<string>, start: nat, mapping: map<string, Val>)
    requires rd.kind(op) == TwoOperands(b)
    requires start < |tokens| && tokens[start] == op && Eval(rd, l, mapping).Ok?
    requires Parse(rd, tokens, start + 1, mapping) == Outcome(Eval(rd, l, mapping), start + 1 + |Prefix(l)|)
    requires Parse(rd, tokens, start + 1 + |Prefix(l)|, mapping) == Outcome(Eval(rd, r, mapping), start + 1 + |Prefix(l)| + |Prefix(r)|)
    requires Eval(rd, r, mapping).Err?
    ensures Parse(rd, tokens, start, mapping) == Outcome(Eval(rd, Bin(op, b, l, r), mapping), start + |Prefix(Bin(op, b, l, r))|)
  {
    var e := Eval(rd, r, mapping).error;
    var leftEnd := start + 1 + |Prefix(l)|;
    assert Parse(rd, tokens, start + 1, mapping) == Ok((Eval(rd, l, mapping).value, leftEnd));
    assert Parse(rd, tokens, leftEnd, mapping) == Err(e);
    ParseBinaryRightErr(rd, tokens, start, mapping, Eval(rd, l, mapping).value, leftEnd, e);
    assert Eval(rd, Bin(op, b, l, r), mapping) == Err(e);
  }

  lemma ParseBinaryBoth(rd: Reading, op: string, b: BinOp, l: Term, r: Term, tokens: seq<string>, start: nat, mapping: map<string, Val>)
    requires rd.kind(op) == TwoOperands(b)
    requires start < |tokens| && tokens[start] == op && Eval(rd, l, mapping).Ok?
    requires Parse(rd, tokens, start + 1, mapping) == Outcome(Eval(rd, l, mapping), start + 1 + |Prefix(l)|)
    requires Parse(rd, tokens, start + 1 + |Prefix(l)|, mapping) == Outcome(Eval(rd, r, mapping), start + 1 + |Prefix(l)| + |Prefix(r)|)
    requires Eval(rd, r, mapping).Ok?
    ensures Parse(rd, tokens, start, mapping) == Outcome(Eval(rd, Bin(op, b, l, r), mapping), start + |Prefix(Bin(op, b, l, r))|)
  {
    var leftEnd := start + 1 + |Prefix(l)|;
    assert |Prefix(Bin(op, b, l, r))| == 1 + |Prefix(l)| + |Prefix(r)|;
    ParseBinaryOk(rd, tokens, start, mapping, Eval(rd, l, mapping).value, leftEnd, Eval(rd, r, mapping).value, leftEnd + |Prefix(r)|);
  }

  /** The tokens of `[op] + pl + pr` laid out from `start` split into the
      operator and its two operands' windows. */
  lemma SplitWindow(tokens: seq<string>, start: nat, op: string, pl: seq<string>, pr: seq<string>)
    requires start + 1 + |pl| + |pr| <= |tokens|
    requires tokens[start..start + 1 + |pl| + |pr|] == [op] + pl + pr
    ensures tokens[start] == op
    ensures tokens[start + 1..start + 1 + |pl|] == pl
    ensures tokens[start + 1 + |pl|..start + 1 + |pl| + |pr|] == pr
  {
    var w := tokens[start..start + 1 + |pl| + |pr|];
    assert tokens[start] == w[0];
    forall k | 0 <= k < |pl| ensures tokens[start + 1 + k] == pl[k] {
      assert tokens[start + 1 + k] == w[1 + k];
    }
    forall k | 0 <= k < |pr| ensures tokens[start + 1 + |pl| + k] == pr[k] {
      assert tokens[start + 1 + |pl| + k] == w[1 + |pl| + k];
    }
  }

  /** A whole token list that is one expression parses to its value and
      ends exactly at the end. */
  lemma ParseWhole(rd: Reading, t: Term, mapping: map<string, Val>)
    requires WellFormed(rd, t) && Eval(rd, t, mapping).Ok?
    ensures Parse(rd, Prefix(t), 0, mapping) == Ok((Eval(rd, t, mapping).value, |Prefix(t)|))
  {
    assert Prefix(t)[0..|Prefix(t)|] == Prefix(t);
    ParsePrefix(rd, t, Prefix(t), 0, mapping);
  }

  /** Under any reading, a token list whose every name is bound raises no
      `KeyError`. */
  lemma {:induction false} NoKeyErrorWith(rd: Reading, tokens: seq<string>, start: nat, mapping: map<string, Val>)
    requires forall k :: 0 <= k < |tokens| && rd.kind(tokens[k]) == NameToken ==> tokens[k] in mapping
    requires forall b, x, y :: rd.bin(b, x, y) != Err(KeyError)
    ensures Parse(rd, tokens, start, mapping) != Err(KeyError)
    decreases |tokens| - start
  {
    if start < |tokens| {
      var kind := rd.kind(tokens[start]);
      if kind.OneOperand? || kind.TwoOperands? {
        NoKeyErrorWith(rd, tokens, start + 1, mapping);
        var first := Parse(rd, tokens, start + 1, mapping);
        if first.Ok? && kind.TwoOperands? {
          NoKeyErrorWith(rd, tokens, first.value.1, mapping);
        }
      }
    }
  }

  /** In a token list whose every non-keyword token is bound, no `KeyError`
      arises. */
  lemma NoKeyError(tokens: seq<string>, start: nat, mapping: map<string, Val>)
    requires forall k :: 0 <= k < |tokens| && tokens[k] !in Keywords ==> tokens[k] in mapping
    ensures ParseExpression(tokens, start, mapping) != Err(KeyError)
  {
    PythonNamesBound(tokens, mapping);
    PythonBinNoKeyError();
    NoKeyErrorWith(Python, tokens, start, mapping);
  }

  /** Under `Python`, the names are exactly the non-keywords. */
  lemma PythonNamesBound(tokens: seq<string>, mapping: map<string, Val>)
    requires forall k :: 0 <= k < |tokens| && tokens[k] !in Keywords ==> tokens[k] in mapping
    ensures forall k :: 0 <= k < |tokens| && Python.kind(tokens[k]) == NameToken ==> tokens[k] in mapping
  {
    forall k | 0 <= k < |tokens| && Python.kind(tokens[k]) == NameToken
      ensures tokens[k] in mapping
    {
      NameIffNotKeyword(tokens[k]);
      PythonReading(tokens[k], NegOp, G, EqOp, G, G);
    }
  }

  /** No binary operator of main.py raises `KeyError`. */
  lemma PythonBinNoKeyError()
    ensures forall b, x, y :: Python.bin(b, x, y) != Err(KeyError)
  {
    forall b, x, y
      ensures Python.bin(b, x, y) != Err(KeyError)
    {
      PythonReading("", NegOp, x, b, x, y);
    }
  }

  // ---------- The operator tables on {r, g, e} ----------

  /** `-` swaps 'r' and 'e' and fixes 'g'; so it is an involution. */
  lemma NegInvolution(v: Val)
    requires IsRge(v)
    ensures IsRge(Neg(v)) && Neg(Neg(v)) == v
    ensures Neg(R) == E && Neg(G) == G && Neg(E) == R
  {
  }

  /** `/` cycles g -> e -> r -> g; so applying it three times is the identity
      and no fewer applications are. */
  lemma SlashCycle(v: Val)
    requires IsRge(v)
    ensures Slash(G) == E && Slash(E) == R && Slash(R) == G
    ensures Slash(Slash(Slash(v))) == v && Slash(v) != v && Slash(Slash(v)) != v
  {
  }

  /** `robust x` is `x != 'r'`, and the constants denote 'e', 'r', 'g'. */
  lemma RobustAndConstants(v: Val)
    requires IsRge(v)
    ensures Unary(RobustOp, v) == B(v != R)
    ensures KindOf("top") == ConstantToken(E) && KindOf("bot") == ConstantToken(R) && KindOf("phi") == ConstantToken(G)
  {
  }

  /** `[=` on {r, g, e} is the total order e < g < r (and never raises). */
  lemma GeOrder(a: Val, b: Val, c: Val)
    requires IsRge(a) && IsRge(b) && IsRge(c)
    ensures Ge(a, b).Ok? && Ge(a, b).value.B?
    ensures Ge(a, a) == Ok(B(true))
    ensures Ge(a, b) == Ok(B(true)) && Ge(b, a) == Ok(B(true)) ==> a == b
    ensures Ge(a, b) == Ok(B(true)) && Ge(b, c) == Ok(B(true)) ==> Ge(a, c) == Ok(B(true))
    ensures Ge(a, b) == Ok(B(true)) || Ge(b, a) == Ok(B(true))
    ensures Ge(R, G) == Ok(B(true)) && Ge(G, E) == Ok(B(true)) && Ge(E, G) == Ok(B(false))
  {
  }

  /** `==` and `equiv` are equality. */
  lemma EqualityTokens(a: Val, b: Val)
    ensures KindOf("==") == TwoOperands(EqOp) && KindOf("equiv") == TwoOperands(EquivOp)
    ensures Apply2(EqOp, a, b) == Ok(B(a == b)) && Apply2(EquivOp, a, b) == Ok(B(a == b))
  {
  }

  /** The symmetric tables: `||`, `oplus`, `meet` and `join` are
      commutative on {r, g, e} and stay in {r, g, e}. */
  lemma Commutative(a: Val, b: Val)
    requires IsRge(a) && IsRge(b)
    ensures Par(a, b) == Par(b, a) && Oplus(a, b) == Oplus(b, a)
    ensures Meet(a, b) == Meet(b, a) && JoinVal(a, b) == JoinVal(b, a)
    ensures IsRge(Par(a, b)) && IsRge(Oplus(a, b)) && IsRge(Meet(a, b)) && IsRge(JoinVal(a, b)) && IsRge(Lpop(a, b))
  {
  }

  /** The lollipop is `|| (- A) B`. */
  lemma LpopDefinition(a: Val, b: Val)
    requires IsRge(a) && IsRge(b)
    ensures Lpop(a, b) == Par(Neg(a), b)
  {
  }

  /** The verification theorem on values: `[= A B` holds exactly when
      `robust (|| (- A) B)` does. */
  lemma VerificationTheorem(a: Val, b: Val)
    requires IsRge(a) && IsRge(b)
    ensures Ge(a, b) == Ok(Robust(Par(Neg(a), b)))
  {
  }

  // ---------- The identities the file evaluates, as token lists ----------

  function AB(a: Val, b: Val): map<string, Val> {
    map["A" := a, "B" := b]
  }

  /** How the tokens of the example expressions are read. */
  lemma ExampleTokens()
    ensures Python.kind("A") == NameToken && Python.kind("B") == NameToken
    ensures Python.kind("G") == NameToken && Python.kind("D") == NameToken
    ensures Python.kind("-") == OneOperand(NegOp) && Python.kind("robust") == OneOperand(RobustOp)
    ensures Python.kind("equiv") == TwoOperands(EquivOp) && Python.kind("lpop") == TwoOperands(LpopOp)
    ensures Python.kind("||") == TwoOperands(ParOp) && Python.kind("[=") == TwoOperands(GeOp)
    ensures Python.kind("and") == TwoOperands(AndOp) && Python.kind("implies") == TwoOperands(ImpliesOp)
  {
    ExampleNames();
    ExampleOperators();
  }

  lemma ExampleNames()
    ensures Python.kind("A") == NameToken && Python.kind("B") == NameToken
    ensures Python.kind("G") == NameToken && Python.kind("D") == NameToken
    ensures Python.kind("X") == NameToken
  {
  }

  lemma ExampleOperators()
    ensures Python.kind("-") == OneOperand(NegOp) && Python.kind("robust") == OneOperand(RobustOp)
    ensures Python.kind("equiv") == TwoOperands(EquivOp) && Python.kind("lpop") == TwoOperands(LpopOp)
    ensures Python.kind("||") == TwoOperands(ParOp) && Python.kind("[=") == TwoOperands(GeOp)
    ensures Python.kind("and") == TwoOperands(AndOp) && Python.kind("implies") == TwoOperands(ImpliesOp)
    ensures Python.kind("oplus") == TwoOperands(OplusOp)
  {
  }

  /** `- A`, `robust x`, `|| x y` as terms. */
  function NegA(): Term { Un("-", NegOp, Name("A")) }
  function RobustOf(t: Term): Term { Un("robust", RobustOp, t) }
  function ParOf(l: Term, r: Term): Term { Bin("||", ParOp, l, r) }

  /** `equiv lpop A B || - A B`. */
  function LollipopTerm(): Term {
    Bin("equiv", EquivOp, Bin("lpop", LpopOp, Name("A"), Name("B")), ParOf(NegA(), Name("B")))
  }

  /** `equiv [= A B robust || - A B`. */
  function VerificationTerm(): Term {
    Bin("equiv", EquivOp, Bin("[=", GeOp, Name("A"), Name("B")), RobustOf(ParOf(NegA(), Name("B"))))
  }

  /** `implies and robust G robust D robust || G D`. */
  function MixTerm(): Term {
    Bin("implies", ImpliesOp, Bin("and", AndOp, RobustOf(Name("G")), RobustOf(Name("D"))), RobustOf(ParOf(Name("G"), Name("D"))))
  }

  lemma LollipopShape()
    ensures WellFormed(Python, LollipopTerm()) && Prefix(LollipopTerm()) == ["equiv", "lpop", "A", "B", "||", "-", "A", "B"]
  {
    ExampleTokens();
  }

  lemma VerificationShape()
    ensures WellFormed(Python, VerificationTerm()) && Prefix(VerificationTerm()) == ["equiv", "[=", "A", "B", "robust", "||", "-", "A", "B"]
  {
    ExampleTokens();
    assert WellFormed(Python, NegA()) && WellFormed(Python, Name("B"));
    assert WellFormed(Python, ParOf(NegA(), Name("B")));
    assert WellFormed(Python, RobustOf(ParOf(NegA(), Name("B"))));
    assert Prefix(RobustOf(ParOf(NegA(), Name("B")))) == ["robust", "||", "-", "A", "B"];
  }

  lemma MixShape()
    ensures WellFormed(Python, MixTerm()) && Prefix(MixTerm()) == ["implies", "and", "robust", "G", "robust", "D", "robust", "||", "G", "D"]
  {
    ExampleTokens();
    assert WellFormed(Python, RobustOf(Name("G"))) && WellFormed(Python, RobustOf(Name("D")));
    assert WellFormed(Python, Bin("and", AndOp, RobustOf(Name("G")), RobustOf(Name("D"))));
    assert WellFormed(Python, RobustOf(ParOf(Name("G"), Name("D"))));
  }

  /** `|| - A B` is the lollipop of A and B. */
  lemma NegAParB(a: Val, b: Val)
    ensures Eval(Python, ParOf(NegA(), Name("B")), AB(a, b)) == Ok(Par(Neg(a), b))
  {
    PythonReading("", NegOp, a, ParOp, Neg(a), b);
    assert Eval(Python, Name("A"), AB(a, b)) == Ok(a);
    assert Eval(Python, NegA(), AB(a, b)) == Ok(Neg(a));
  }

  /** `equiv lpop A B || - A B` evaluates to True in every row. */
  lemma LollipopRows(a: Val, b: Val)
    requires IsRge(a) && IsRge(b)
    ensures ParseExpression(["equiv", "lpop", "A", "B", "||", "-", "A", "B"], 0, AB(a, b)) == Ok((B(true), 8))
  {
    LpopDefinition(a, b);
    NegAParB(a, b);
    PythonReading("", NegOp, a, LpopOp, a, b);
    PythonReading("", NegOp, a, EquivOp, Lpop(a, b), Par(Neg(a), b));
    assert Eval(Python, Bin("lpop", LpopOp, Name("A"), Name("B")), AB(a, b)) == Ok(Lpop(a, b));
    assert Eval(Python, LollipopTerm(), AB(a, b)) == Ok(B(true));
    LollipopShape();
    ParseWhole(Python, LollipopTerm(), AB(a, b));
  }

  /** `equiv [= A B robust || - A B` evaluates to True in every row. */
  lemma VerificationRows(a: Val, b: Val)
    requires IsRge(a) && IsRge(b)
    ensures ParseExpression(["equiv", "[=", "A", "B", "robust", "||", "-", "A", "B"], 0, AB(a, b)) == Ok((B(true), 9))
  {
    VerificationTheorem(a, b);
    NegAParB(a, b);
    var ge := Ge(a, b).value;
    PythonReading("", RobustOp, Par(Neg(a), b), GeOp, a, b);
    PythonReading("", NegOp, a, EquivOp, ge, Robust(Par(Neg(a), b)));
    assert Eval(Python, Bin("[=", GeOp, Name("A"), Name("B")), AB(a, b)) == Ok(ge);
    assert Eval(Python, RobustOf(ParOf(NegA(), Name("B"))), AB(a, b)) == Ok(Robust(Par(Neg(a), b)));
    assert Eval(Python, VerificationTerm(), AB(a, b)) == Ok(B(true));
    VerificationShape();
    ParseWhole(Python, VerificationTerm(), AB(a, b));
  }

  /** `and robust G robust D` and `robust || G D` under a binding of G and D. */
  lemma MixParts(g: Val, d: Val)
    ensures Eval(Python, Bin("and", AndOp, RobustOf(Name("G")), RobustOf(Name("D"))), map["G" := g, "D" := d])
         == Apply2(AndOp, Robust(g), Robust(d))
    ensures Eval(Python, RobustOf(ParOf(Name("G"), Name("D"))), map["G" := g, "D" := d]) == Ok(Robust(Par(g, d)))
  {
    var m := map["G" := g, "D" := d];
    PythonReading("", RobustOp, g, AndOp, Robust(g), Robust(d));
    PythonReading("", RobustOp, d, ParOp, g, d);
    PythonReading("", RobustOp, Par(g, d), ParOp, g, d);
    assert Eval(Python, Name("G"), m) == Ok(g) && Eval(Python, Name("D"), m) == Ok(d);
    assert Eval(Python, RobustOf(Name("G")), m) == Ok(Robust(g));
    assert Eval(Python, RobustOf(Name("D")), m) == Ok(Robust(d));
    assert Eval(Python, ParOf(Name("G"), Name("D")), m) == Ok(Par(g, d));
  }

  /** The MIX rule `implies and robust G robust D robust || G D` evaluates to
      True in every row. */
  lemma MixRows(g: Val, d: Val)
    requires IsRge(g) && IsRge(d)
    ensures ParseExpression(["implies", "and", "robust", "G", "robust", "D", "robust", "||", "G", "D"], 0, map["G" := g, "D" := d])
         == Ok((B(true), 10))
  {
    var m := map["G" := g, "D" := d];
    MixParts(g, d);
    PythonReading("", RobustOp, g, ImpliesOp, Apply2(AndOp, Robust(g), Robust(d)).value, Robust(Par(g, d)));
    assert Eval(Python, MixTerm(), m) == Ok(B(true));
    MixShape();
    ParseWhole(Python, MixTerm(), m);
  }

  /** `lpop oplus A || X B || oplus A X B`. */
  function RuleTerm(): Term {
    Bin("lpop", LpopOp,
        Bin("oplus", OplusOp, Name("A"), ParOf(Name("X"), Name("B"))),
        ParOf(Bin("oplus", OplusOp, Name("A"), Name("X")), Name("B")))
  }

  function AXB(a: Val, x: Val, b: Val): map<string, Val> {
    map["A" := a, "X" := x, "B" := b]
  }

  lemma RuleShape()
    ensures WellFormed(Python, RuleTerm())
    ensures Prefix(RuleTerm()) == ["lpop", "oplus", "A", "||", "X", "B", "||", "oplus", "A", "X", "B"]
  {
    RuleWellFormed();
    assert Prefix(Bin("oplus", OplusOp, Name("A"), ParOf(Name("X"), Name("B")))) == ["oplus", "A", "||", "X", "B"];
    assert Prefix(ParOf(Bin("oplus", OplusOp, Name("A"), Name("X")), Name("B"))) == ["||", "oplus", "A", "X", "B"];
  }

  lemma RuleWellFormed()
    ensures WellFormed(Python, RuleTerm())
  {
    ExampleTokens();
    assert WellFormed(Python, Name("A")) && WellFormed(Python, Name("X")) && WellFormed(Python, Name("B"));
    assert WellFormed(Python, ParOf(Name("X"), Name("B")));
    assert WellFormed(Python, Bin("oplus", OplusOp, Name("A"), ParOf(Name("X"), Name("B"))));
    assert WellFormed(Python, Bin("oplus", OplusOp, Name("A"), Name("X")));
    assert WellFormed(Python, ParOf(Bin("oplus", OplusOp, Name("A"), Name("X")), Name("B")));
  }

  /** On the three values, the lollipop from `A oplus (X || B)` to
      `(A oplus X) || B` is never 'r'. */
  lemma RuleValue(a: Val, x: Val, b: Val)
    requires IsRge(a) && IsRge(x) && IsRge(b)
    ensures Lpop(Oplus(a, Par(x, b)), Par(Oplus(a, x), b)) != R
  {
  }

  /** The two operands of the rule's lollipop under a binding of A, X, B. */
  lemma RuleOperands(a: Val, x: Val, b: Val)
    ensures Eval(Python, Bin("oplus", OplusOp, Name("A"), ParOf(Name("X"), Name("B"))), AXB(a, x, b)) == Ok(Oplus(a, Par(x, b)))
    ensures Eval(Python, ParOf(Bin("oplus", OplusOp, Name("A"), Name("X")), Name("B")), AXB(a, x, b)) == Ok(Par(Oplus(a, x), b))
  {
    var m := AXB(a, x, b);
    PythonReading("", NegOp, a, ParOp, x, b);
    PythonReading("", NegOp, a, OplusOp, a, Par(x, b));
    PythonReading("", NegOp, a, OplusOp, a, x);
    PythonReading("", NegOp, a, ParOp, Oplus(a, x), b);
    assert Eval(Python, Name("A"), m) == Ok(a) && Eval(Python, Name("X"), m) == Ok(x) && Eval(Python, Name("B"), m) == Ok(b);
    assert Eval(Python, ParOf(Name("X"), Name("B")), m) == Ok(Par(x, b));
    assert Eval(Python, Bin("oplus", OplusOp, Name("A"), Name("X")), m) == Ok(Oplus(a, x));
  }

  /** The rule `lpop oplus A || X B || oplus A X B` evaluates to 'e' or 'g',
      never to 'r', in every row. */
  lemma RuleRows(a: Val, x: Val, b: Val)
    requires IsRge(a) && IsRge(x) && IsRge(b)
    ensures var r := ParseExpression(["lpop", "oplus", "A", "||", "X", "B", "||", "oplus", "A", "X", "B"], 0, AXB(a, x, b));
      r.Ok? && r.value.1 == 11 && (r.value.0 == E || r.value.0 == G)
  {
    var left := Oplus(a, Par(x, b));
    var right := Par(Oplus(a, x), b);
    RuleValue(a, x, b);
    RuleOperands(a, x, b);
    PythonReading("", NegOp, a, LpopOp, left, right);
    assert Eval(Python, RuleTerm(), AXB(a, x, b)) == Ok(Lpop(left, right));
    RuleShape();
    ParseWhole(Python, RuleTerm(), AXB(a, x, b));
  }
}
