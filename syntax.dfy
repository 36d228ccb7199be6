/** The front end shared, line for line, by ll_z3.js and llsat_z3.js: the
    tokenizer, the recursive-descent parser for fully parenthesised prefix
    formulas, and the collection of variable names. The two files differ only
    in the text of the "extra tokens" error, which each file's module renders
    from `ExtraTokens`. */
module Syntax {
  import opened Results
  import opened Text

  /** A token is the string the tokenizer pushes: "(", ")" or an atom. */
  type Token = string

  /** `{kind: "var", name}` and `{kind: "app", op, args}`. */
  datatype Ast = Var(name: string) | App(op: string, args: seq<Ast>)

  datatype SyntaxError =
    | UnexpectedEnd        // "Unexpected end of input"
    | ExpectedOperator     // "Expected operator after '('"
    | MissingClose         // "Missing ')'"
    | UnexpectedClose      // "Unexpected ')'"
    | ExtraTokens(rest: seq<Token>)

  // ---------- Tokenizer ----------

  /** A character that belongs to an atom: neither a parenthesis nor whitespace. */
  predicate AtomChar(c: char) {
    !IsParen(c) && !IsSpace(c)
  }

  predicate AtomChars(s: string) {
    forall k :: 0 <= k < |s| ==> AtomChar(s[k])
  }

  predicate IsAtom(t: Token) {
    t != [] && AtomChars(t)
  }

  /** What the tokenizer may emit. */
  predicate WellFormedToken(t: Token) {
    t == "(" || t == ")" || IsAtom(t)
  }

  /** Length of the longest prefix of `s` made of atom characters. */
  function AtomLen(s: string): (n: nat)
    ensures n <= |s| && AtomChars(s[..n])
    ensures n < |s| ==> !AtomChar(s[n])
  {
    if s == [] || !AtomChar(s[0]) then 0 else 1 + AtomLen(s[1..])
  }

  /** The token sequence of a line: each parenthesis is a token, whitespace
      separates, and every maximal run of other characters is one atom. */
  function Lex(s: string): seq<Token>
    decreases |s|
  {
    if s == [] then []
    else if IsParen(s[0]) then [[s[0]]] + Lex(s[1..])
    else if IsSpace(s[0]) then Lex(s[1..])
    else
      var n := AtomLen(s);
      [s[..n]] + Lex(s[n..])
  }

  /** An atom followed by a delimiter (or by nothing) is lexed as one token. */
  lemma {:induction false} LexAtomThen(cur: string, rest: string)
    requires IsAtom(cur)
    requires rest == [] || !AtomChar(rest[0])
    ensures Lex(cur + rest) == [cur] + Lex(rest)
  {
    AtomLenOf(cur, rest);
    assert (cur + rest)[..|cur|] == cur && (cur + rest)[|cur|..] == rest;
  }

  lemma {:induction false} AtomLenOf(cur: string, rest: string)
    requires AtomChars(cur)
    requires rest == [] || !AtomChar(rest[0])
    ensures AtomLen(cur + rest) == |cur|
  {
    if cur != [] {
      assert (cur + rest)[1..] == cur[1..] + rest;
      AtomLenOf(cur[1..], rest);
    }
  }

  /** Flushing the pending atom `cur` before a delimiter. */
  lemma LexFlush(cur: string, rest: string)
    requires AtomChars(cur)
    requires rest == [] || !AtomChar(rest[0])
    ensures Lex(cur + rest) == Flush(cur) + Lex(rest)
  {
    if cur != [] {
      LexAtomThen(cur, rest);
    } else {
      assert cur + rest == rest;
    }
  }

  /** The atom the tokenizer pushes when it flushes `cur`, if any. */
  function Flush(cur: string): seq<Token> {
    if cur == [] then [] else [cur]
  }

  /** The tokenizer's loop invariant: the tokens pushed so far, followed by
      the tokens of the pending atom and the unread input, are the tokens of
      the whole line. */
  predicate TokenizeInv(s: string, i: nat, out: seq<Token>, cur: string, all: seq<Token>) {
    i <= |s| && AtomChars(cur) && out + Lex(cur + s[i..]) == all
  }

  /** A line starting with a parenthesis or whitespace lexes as that
      character's tokens followed by the rest. */
  lemma LexDelimiter(rest: string)
    requires rest != [] && (IsParen(rest[0]) || IsSpace(rest[0]))
    ensures Lex(rest) == (if IsParen(rest[0]) then [[rest[0]]] else []) + Lex(rest[1..])
  {
  }

  /** A delimiter at `i` flushes the pending atom and is followed by the
      tokens of the rest of the line. */
  lemma TokenizeDelimiter(s: string, i: nat, out: seq<Token>, cur: string, all: seq<Token>)
    requires i < |s| && (IsParen(s[i]) || IsSpace(s[i])) && TokenizeInv(s, i, out, cur, all)
    ensures out + Flush(cur) + (if IsParen(s[i]) then [[s[i]]] else []) + Lex(s[i + 1..]) == all
  {
    var rest := s[i..];
    assert rest[0] == s[i] && rest[1..] == s[i + 1..];
    LexFlush(cur, rest);
    LexDelimiter(rest);
    var d: seq<Token> := if IsParen(s[i]) then [[s[i]]] else [];
    assert Lex(cur + rest) == Flush(cur) + (d + Lex(s[i + 1..]));
    assert out + Flush(cur) + d + Lex(s[i + 1..]) == out + (Flush(cur) + (d + Lex(s[i + 1..])));
  }

  /** A parenthesis flushes the pending atom and is pushed itself. */
  lemma TokenizeParen(s: string, i: nat, out: seq<Token>, cur: string, all: seq<Token>)
    requires i < |s| && IsParen(s[i]) && TokenizeInv(s, i, out, cur, all)
    ensures TokenizeInv(s, i + 1, out + Flush(cur) + [[s[i]]], "", all)
  {
    TokenizeDelimiter(s, i, out, cur, all);
    assert "" + s[i + 1..] == s[i + 1..];
  }

  /** Whitespace flushes the pending atom and is dropped. */
  lemma TokenizeSpace(s: string, i: nat, out: seq<Token>, cur: string, all: seq<Token>)
    requires i < |s| && IsSpace(s[i]) && TokenizeInv(s, i, out, cur, all)
    ensures TokenizeInv(s, i + 1, out + Flush(cur), "", all)
  {
    assert !IsParen(s[i]);
    TokenizeDelimiter(s, i, out, cur, all);
    assert out + Flush(cur) + [] == out + Flush(cur);
    assert "" + s[i + 1..] == s[i + 1..];
  }

  /** Any other character extends the pending atom. */
  lemma TokenizeAtomChar(s: string, i: nat, out: seq<Token>, cur: string, all: seq<Token>)
    requires i < |s| && AtomChar(s[i]) && TokenizeInv(s, i, out, cur, all)
    ensures TokenizeInv(s, i + 1, out, cur + [s[i]], all)
  {
    assert cur + s[i..] == (cur + [s[i]]) + s[i + 1..];
  }

  /** `if (cur.trim()) out.push(cur.trim())`: push the pending atom, if any. */
  method PushPending(out: seq<Token>, cur: string) returns (out': seq<Token>)
    requires AtomChars(cur)
    ensures out' == out + Flush(cur)
  {
    TrimNoSpace(cur);
    out' := out;
    if Trim(cur) != [] {
      out' := out' + [Trim(cur)];
    }
  }

  /** `tokenize(s)`: the source's character loop with its pending atom `cur`. */
  method Tokenize(s: string) returns (out: seq<Token>)
    ensures out == Lex(s)
  {
    out := [];
    var cur := "";
    var i := 0;
    ghost var all := Lex(s);
    assert cur + s[i..] == s;
    while i < |s|
      invariant TokenizeInv(s, i, out, cur, all)
      invariant all == Lex(s)
    {
      var ch := s[i];
      if ch == '(' || ch == ')' {
        TokenizeParen(s, i, out, cur, all);
        out := PushPending(out, cur);
        cur := "";
        out := out + [[ch]];
      } else if IsSpace(ch) {
        TokenizeSpace(s, i, out, cur, all);
        out := PushPending(out, cur);
        cur := "";
      } else {
        TokenizeAtomChar(s, i, out, cur, all);
        cur := cur + [ch];
      }
      i := i + 1;
    }
    LexFlush(cur, []);
    assert cur + s[i..] == cur + [] == cur;
    out := PushPending(out, cur);
  }

  /** Every token is a parenthesis or a non-empty atom free of whitespace and
      parentheses. */
  lemma {:induction false} LexWellFormed(s: string)
    ensures forall t :: t in Lex(s) ==> WellFormedToken(t)
    decreases |s|
  {
    if s != [] {
      if IsParen(s[0]) || IsSpace(s[0]) {
        LexWellFormed(s[1..]);
      } else {
        LexWellFormed(s[AtomLen(s)..]);
      }
    }
  }


  lemma {:induction false} RemoveSpacesAtom(s: string)
    requires AtomChars(s)
    ensures RemoveSpaces(s) == s
  {
    if s != [] {
      RemoveSpacesAtom(s[1..]);
      assert s == [s[0]] + s[1..];
    }
  }

  lemma {:induction false} RemoveSpacesAppend(a: string, b: string)
    ensures RemoveSpaces(a + b) == RemoveSpaces(a) + RemoveSpaces(b)
  {
    if a != [] {
      assert (a + b)[1..] == a[1..] + b;
      RemoveSpacesAppend(a[1..], b);
    } else {
      assert a + b == b;
    }
  }

  /** Gluing the tokens back together gives the line minus its whitespace:
      nothing but whitespace is dropped, and nothing is reordered. */
  lemma {:induction false} LexConcat(s: string)
    ensures Concat(Lex(s)) == RemoveSpaces(s)
    decreases |s|
  {
    if s != [] {
      if IsParen(s[0]) {
        LexConcat(s[1..]);
        ConcatAppend([[s[0]]], Lex(s[1..]));
      } else if IsSpace(s[0]) {
        LexConcat(s[1..]);
      } else {
        var n := AtomLen(s);
        LexConcat(s[n..]);
        ConcatAppend([s[..n]], Lex(s[n..]));
        assert s == s[..n] + s[n..];
        RemoveSpacesAppend(s[..n], s[n..]);
        RemoveSpacesAtom(s[..n]);
      }
    }
  }

  /** Writing well-formed tokens out separated by single spaces and lexing the
      result gives the same tokens back. */
  lemma {:induction false} LexJoin(ts: seq<Token>)
    requires forall t :: t in ts ==> WellFormedToken(t)
    ensures Lex(Join(ts, " ")) == ts
  {
    if ts != [] {
      var rest := if |ts| == 1 then "" else " " + Join(ts[1..], " ");
      assert Join(ts, " ") == ts[0] + rest;
      assert ts[0] in ts;
      if |ts| > 1 {
        LexJoin(ts[1..]);
        assert rest[1..] == Join(ts[1..], " ");
        assert Lex(rest) == ts[1..];
      }
      assert Lex(rest) == ts[1..];
      if IsAtom(ts[0]) {
        LexAtomThen(ts[0], rest);
      } else {
        assert |ts[0]| == 1 && IsParen(ts[0][0]);
        assert (ts[0] + rest)[0] == ts[0][0];
        assert (ts[0] + rest)[1..] == rest;
        assert [(ts[0] + rest)[0]] == ts[0];
      }
      assert ts == [ts[0]] + ts[1..];
    }
  }

  // ---------- Parser ----------

  /** `parseExpr(tokens, idx)` started with the cursor at `i`: the expression
      and the cursor position after it, or the error it throws. */
  function ParseAt(toks: seq<Token>, i: nat): (r: Result<(Ast, nat), SyntaxError>)
    ensures r.Ok? ==> i < r.value.1 <= |toks|
    decreases |toks| - i, 0
  {
    if i >= |toks| then Err(UnexpectedEnd)
    else if toks[i] == "(" then
      if i + 1 >= |toks| then Err(ExpectedOperator)
      else ParseArgs(toks, Lower(toks[i + 1]), i + 2, [])
    else if toks[i] == ")" then Err(UnexpectedClose)
    else Ok((Var(toks[i]), i + 1))
  }

  /** The argument loop of an application with operator `op`, after the
      arguments `acc` have been read and the cursor stands at `j`. */
  function ParseArgs(toks: seq<Token>, op: string, j: nat, acc: seq<Ast>): (r: Result<(Ast, nat), SyntaxError>)
    requires j <= |toks|
    ensures r.Ok? ==> j < r.value.1 <= |toks|
    decreases |toks| - j, 1
  {
    if j < |toks| && toks[j] != ")" then
      match ParseAt(toks, j)
      case Err(e) => Err(e)
      case Ok((a, k)) => ParseArgs(toks, op, k, acc + [a])
    else if j >= |toks| || toks[j] != ")" then Err(MissingClose)
    else Ok((App(op, acc), j + 1))
  }

  /** `parseLine` on a token sequence: exactly one expression, nothing after it. */
  function ParseTokens(toks: seq<Token>): Result<Ast, SyntaxError> {
    match ParseAt(toks, 0)
    case Err(e) => Err(e)
    case Ok((ast, j)) => if j != |toks| then Err(ExtraTokens(toks[j..])) else Ok(ast)
  }

  /** `parseLine(s)`. */
  function Parsed(s: string): Result<Ast, SyntaxError> {
    ParseTokens(Lex(s))
  }

  /** `parseExpr`: recursive descent with a cursor that advances over the
      tokens, pushing each argument as it is parsed. */
  method ParseExpr(toks: seq<Token>, i: nat) returns (r: Result<(Ast, nat), SyntaxError>)
    ensures r == ParseAt(toks, i)
    decreases |toks| - i
  {
    if i >= |toks| {
      return Err(UnexpectedEnd);
    }
    var t := toks[i];
    if t == "(" {
      var j := i + 1;
      if j >= |toks| {
        return Err(ExpectedOperator);
      }
      var op := Lower(toks[j]);
      j := j + 1;
      var args: seq<Ast> := [];
      while j < |toks| && toks[j] != ")"
        invariant i + 2 <= j <= |toks|
        invariant ParseArgs(toks, op, j, args) == ParseAt(toks, i)
        decreases |toks| - j
      {
        var sub := ParseExpr(toks, j);
        if sub.Err? {
          return Err(sub.error);
        }
        args := args + [sub.value.0];
        j := sub.value.1;
      }
      if j >= |toks| || toks[j] != ")" {
        return Err(MissingClose);
      }
      return Ok((App(op, args), j + 1));
    }
    if t == ")" {
      return Err(UnexpectedClose);
    }
    return Ok((Var(t), i + 1));
  }

  /** `parseLine(s)`: tokenize, parse one expression, refuse leftovers. */
  method ParseLine(s: string) returns (r: Result<Ast, SyntaxError>)
    ensures r == Parsed(s)
  {
    var toks := Tokenize(s);
    var e := ParseExpr(toks, 0);
    if e.Err? {
      return Err(e.error);
    }
    var (ast, j) := e.value;
    if j != |toks| {
      return Err(ExtraTokens(toks[j..]));
    }
    return Ok(ast);
  }

  // ---------- Printing, and the parser's exactness ----------

  /** The tokens of an expression written in the grammar's canonical form. */
  function Serialize(ast: Ast): seq<Token>
    decreases ast
  {
    match ast
    case Var(n) => [n]
    case App(op, args) => ["(", op] + SerializeAll(args) + [")"]
  }

  function SerializeAll(args: seq<Ast>): seq<Token>
    decreases args
  {
    if args == [] then [] else Serialize(args[0]) + SerializeAll(args[1..])
  }

  /** An expression the parser can produce: no variable is named by a
      parenthesis, and every operator is already lower case. */
  predicate WellFormed(ast: Ast)
    decreases ast
  {
    match ast
    case Var(n) => n != "(" && n != ")"
    case App(op, args) => Lower(op) == op && forall a :: a in args ==> WellFormed(a)
  }

  /** The tokens `s` stand in `toks` from position `j` on. */
  predicate At(toks: seq<Token>, j: nat, s: seq<Token>) {
    j + |s| <= |toks| && forall k :: 0 <= k < |s| ==> toks[j + k] == s[k]
  }

  /** Tokens `a + b` standing at `j` are `a` at `j` followed by `b`. */
  lemma AtConcat(toks: seq<Token>, j: nat, a: seq<Token>, b: seq<Token>)
    requires At(toks, j, a + b)
    ensures At(toks, j, a) && At(toks, j + |a|, b)
  {
    forall k | 0 <= k < |a| ensures toks[j + k] == a[k] {
      assert (a + b)[k] == a[k];
    }
    forall k | 0 <= k < |b| ensures toks[j + |a| + k] == b[k] {
      assert toks[j + (|a| + k)] == (a + b)[|a| + k];
    }
  }

  lemma {:induction false} ParseSerialized(ast: Ast, toks: seq<Token>, i: nat)
    requires WellFormed(ast) && At(toks, i, Serialize(ast))
    ensures ParseAt(toks, i) == Ok((ast, i + |Serialize(ast)|))
    decreases ast
  {
    assert toks[i + 0] == Serialize(ast)[0];
    match ast
    case Var(x) =>
    case App(op, args) =>
      var sa := SerializeAll(args);
      AtConcat(toks, i, ["(", op] + sa, [")"]);
      AtConcat(toks, i, ["(", op], sa);
      assert toks[i + 1] == ["(", op][1];
      assert toks[i + 2 + |sa| + 0] == [")"][0];
      ParseArgsSerialized(op, args, toks, i + 2, []);
      assert [] + args == args;
  }

  lemma {:induction false} ParseArgsSerialized(op: string, args: seq<Ast>, toks: seq<Token>, j: nat, acc: seq<Ast>)
    requires forall a :: a in args ==> WellFormed(a)
    requires At(toks, j, SerializeAll(args)) && j + |SerializeAll(args)| < |toks|
    requires toks[j + |SerializeAll(args)|] == ")"
    ensures ParseArgs(toks, op, j, acc) == Ok((App(op, acc + args), j + |SerializeAll(args)| + 1))
    decreases args
  {
    if args == [] {
      assert acc + [] == acc;
    } else {
      var m := |Serialize(args[0])|;
      assert args[0] in args;
      SerializeAllSplit(args, toks, j);
      ParseSerialized(args[0], toks, j);
      ParseArgsStep(toks, op, j, acc, args[0], j + m);
      ParseArgsSerialized(op, args[1..], toks, j + m, acc + [args[0]]);
      assert acc + [args[0]] + args[1..] == acc + args;
    }
  }

  /** The canonical tokens of a non-empty argument list, found at `j`, are
      those of the first argument followed by those of the rest, and the
      first of them is not `)`. */
  lemma SerializeAllSplit(args: seq<Ast>, toks: seq<Token>, j: nat)
    requires args != [] && WellFormed(args[0]) && At(toks, j, SerializeAll(args))
    ensures var m := |Serialize(args[0])|;
      m + |SerializeAll(args[1..])| == |SerializeAll(args)|
      && At(toks, j, Serialize(args[0])) && At(toks, j + m, SerializeAll(args[1..]))
      && toks[j] != ")"
  {
    var s0 := Serialize(args[0]);
    var rest := SerializeAll(args[1..]);
    assert SerializeAll(args) == s0 + rest;
    AtConcat(toks, j, s0, rest);
    assert toks[j + 0] == s0[0];
    assert s0[0] != ")" by {
      match args[0]
      case Var(x) =>
      case App(o, xs) =>
    }
  }

  /** One turn of the argument loop: an argument that parses is appended and
      the loop goes on after it. */
  lemma ParseArgsStep(toks: seq<Token>, op: string, j: nat, acc: seq<Ast>, a: Ast, k: nat)
    requires j < |toks| && toks[j] != ")" && ParseAt(toks, j) == Ok((a, k))
    ensures ParseArgs(toks, op, j, acc) == ParseArgs(toks, op, k, acc + [a])
  {
  }

  /** Round trip: the canonical tokens of every expression the parser can
      produce parse back to that expression. */
  lemma ParseTokensSerialize(ast: Ast)
    requires WellFormed(ast)
    ensures ParseTokens(Serialize(ast)) == Ok(ast)
  {
    var toks := Serialize(ast);
    ParseSerialized(ast, toks, 0);
  }

  /** The canonical form of a token sequence: the token right after each
      opening parenthesis (the operator) is lower-cased. */
  function CanonFrom(toks: seq<Token>, afterOpen: bool): seq<Token> {
    if toks == [] then []
    else if afterOpen then [Lower(toks[0])] + CanonFrom(toks[1..], false)
    else [toks[0]] + CanonFrom(toks[1..], toks[0] == "(")
  }

  /** Whether the next token would be an operator, after reading `toks`. */
  function OpenAfter(toks: seq<Token>, afterOpen: bool): bool {
    if toks == [] then afterOpen
    else if afterOpen then OpenAfter(toks[1..], false)
    else OpenAfter(toks[1..], toks[0] == "(")
  }

  function Canon(toks: seq<Token>): seq<Token> {
    CanonFrom(toks, false)
  }

  lemma {:induction false} CanonAppend(a: seq<Token>, b: seq<Token>, open: bool)
    ensures CanonFrom(a + b, open) == CanonFrom(a, open) + CanonFrom(b, OpenAfter(a, open))
    ensures OpenAfter(a + b, open) == OpenAfter(b, OpenAfter(a, open))
  {
    if a != [] {
      assert (a + b)[0] == a[0] && (a + b)[1..] == a[1..] + b;
      CanonAppend(a[1..], b, if open then false else a[0] == "(");
    } else {
      assert a + b == b;
    }
  }

  lemma {:induction false} ParseAtCanon(toks: seq<Token>, i: nat)
    requires ParseAt(toks, i).Ok?
    ensures var (ast, j) := ParseAt(toks, i).value;
      WellFormed(ast) && Serialize(ast) == CanonFrom(toks[i..j], false) && !OpenAfter(toks[i..j], false)
    decreases |toks| - i, 0
  {
    var (ast, j) := ParseAt(toks, i).value;
    if toks[i] == "(" {
      var op := Lower(toks[i + 1]);
      LowerIdempotent(toks[i + 1]);
      ParseArgsCanon(toks, op, i + 2, []);
      var mid := toks[i + 2..j];
      assert toks[i..j] == ["(", toks[i + 1]] + mid;
      CanonAppend(["(", toks[i + 1]], mid, false);
      var head: seq<Token> := ["(", toks[i + 1]];
      assert head[1..] == [toks[i + 1]] && head[1..][1..] == [];
      assert CanonFrom(head[1..], true) == [op];
      assert CanonFrom(head, false) == ["(", op];
      assert OpenAfter(head[1..], true) == false;
      assert OpenAfter(head, false) == false;
    } else {
      assert toks[i..j] == [toks[i]];
    }
  }

  lemma {:induction false} ParseArgsCanon(toks: seq<Token>, op: string, j: nat, acc: seq<Ast>)
    requires j <= |toks| && ParseArgs(toks, op, j, acc).Ok?
    requires Lower(op) == op && forall a :: a in acc ==> WellFormed(a)
    ensures var (t, e) := ParseArgs(toks, op, j, acc).value;
      && t.App? && t.op == op && |acc| <= |t.args| && t.args[..|acc|] == acc
      && WellFormed(t)
      && SerializeAll(t.args[|acc|..]) + [")"] == CanonFrom(toks[j..e], false)
      && !OpenAfter(toks[j..e], false)
    decreases |toks| - j, 1
  {
    var (t, e) := ParseArgs(toks, op, j, acc).value;
    if j < |toks| && toks[j] != ")" {
      var (a, k) := ParseAt(toks, j).value;
      ParseAtCanon(toks, j);
      ParseArgsCanon(toks, op, k, acc + [a]);
      assert toks[j..e] == toks[j..k] + toks[k..e];
      ArgsCanonStep(t.args, acc, a, toks[j..k], toks[k..e]);
    } else {
      assert toks[j..e] == [")"];
      assert t.args[|acc|..] == [];
    }
  }

  /** One argument of the loop: its tokens `x`, then those `y` of the rest of
      the arguments and the closing parenthesis. */
  lemma ArgsCanonStep(args: seq<Ast>, acc: seq<Ast>, a: Ast, x: seq<Token>, y: seq<Token>)
    requires |acc| + 1 <= |args| && args[..|acc| + 1] == acc + [a]
    requires Serialize(a) == CanonFrom(x, false) && !OpenAfter(x, false)
    requires SerializeAll(args[|acc| + 1..]) + [")"] == CanonFrom(y, false) && !OpenAfter(y, false)
    ensures args[..|acc|] == acc
    ensures SerializeAll(args[|acc|..]) + [")"] == CanonFrom(x + y, false) && !OpenAfter(x + y, false)
  {
    CanonAppend(x, y, false);
    var rest := args[|acc|..];
    assert args[|acc|] == (acc + [a])[|acc|];
    assert rest[0] == a && rest[1..] == args[|acc| + 1..];
    assert args[..|acc|] == (acc + [a])[..|acc|];
  }

  /** Exactness: a line parses only if its tokens, operators lower-cased, are
      exactly the canonical tokens of the expression it yields. */
  lemma ParseTokensExact(toks: seq<Token>)
    requires ParseTokens(toks).Ok?
    ensures WellFormed(ParseTokens(toks).value)
    ensures Serialize(ParseTokens(toks).value) == Canon(toks)
  {
    ParseAtCanon(toks, 0);
    assert toks[0..|toks|] == toks;
  }

  /** An expression whose variable names and operators are all atoms, so
      that it can be written out as text. */
  predicate Printable(ast: Ast)
    decreases ast
  {
    match ast
    case Var(n) => IsAtom(n)
    case App(op, args) => IsAtom(op) && Lower(op) == op && forall a :: a in args ==> Printable(a)
  }

  lemma {:induction false} PrintableTokens(ast: Ast)
    requires Printable(ast)
    ensures WellFormed(ast)
    ensures forall t :: t in Serialize(ast) ==> WellFormedToken(t)
    decreases ast
  {
    match ast
    case Var(n) =>
      assert !IsParen(n[0]);
    case App(op, args) =>
      PrintableTokensAll(args);
  }

  lemma {:induction false} PrintableTokensAll(args: seq<Ast>)
    requires forall a :: a in args ==> Printable(a)
    ensures forall a :: a in args ==> WellFormed(a)
    ensures forall t :: t in SerializeAll(args) ==> WellFormedToken(t)
    decreases args
  {
    if args != [] {
      assert args[0] in args;
      PrintableTokens(args[0]);
      PrintableTokensAll(args[1..]);
      forall a | a in args ensures WellFormed(a) {
        if a != args[0] {
          assert a in args[1..];
        }
      }
    }
  }

  /** Text round trip: printing an expression with single spaces between
      its tokens and parsing the line gives the expression back. */
  lemma ParsedUnparse(ast: Ast)
    requires Printable(ast)
    ensures Parsed(Join(Serialize(ast), " ")) == Ok(ast)
  {
    PrintableTokens(ast);
    LexJoin(Serialize(ast));
    ParseTokensSerialize(ast);
  }

  /** "Unexpected end of input" is reported only for a line without tokens:
      nested expressions are parsed only where a token is present. */
  lemma UnexpectedEndIffEmpty(toks: seq<Token>)
    ensures ParseTokens(toks) == Err(UnexpectedEnd) <==> toks == []
  {
    if toks != [] {
      NoUnexpectedEnd(toks, 0);
    }
  }

  lemma {:induction false} NoUnexpectedEnd(toks: seq<Token>, i: nat)
    requires i < |toks|
    ensures ParseAt(toks, i) != Err(UnexpectedEnd)
    decreases |toks| - i, 0
  {
    if toks[i] == "(" && i + 1 < |toks| {
      NoUnexpectedEndArgs(toks, Lower(toks[i + 1]), i + 2, []);
    }
  }

  lemma {:induction false} NoUnexpectedEndArgs(toks: seq<Token>, op: string, j: nat, acc: seq<Ast>)
    requires j <= |toks|
    ensures ParseArgs(toks, op, j, acc) != Err(UnexpectedEnd)
    decreases |toks| - j, 1
  {
    if j < |toks| && toks[j] != ")" {
      NoUnexpectedEnd(toks, j);
      if ParseAt(toks, j).Ok? {
        var (a, k) := ParseAt(toks, j).value;
        NoUnexpectedEndArgs(toks, op, k, acc + [a]);
      }
    }
  }

  // ---------- Variables ----------

  /** The names of the variables occurring in an expression. */
  function VarsOf(ast: Ast): set<string>
    decreases ast
  {
    match ast
    case Var(n) => {n}
    case App(_, args) => VarsOfAll(args)
  }

  function VarsOfAll(args: seq<Ast>): set<string>
    decreases args
  {
    if args == [] then {} else VarsOf(args[0]) + VarsOfAll(args[1..])
  }

  /** The insertion-ordered JavaScript `Set` after adding the variable names
      of `ast`, left to right. */
  function Collect(ast: Ast, acc: seq<string>): seq<string>
    decreases ast
  {
    match ast
    case Var(n) => if n in acc then acc else acc + [n]
    case App(_, args) => CollectAll(args, acc)
  }

  function CollectAll(args: seq<Ast>, acc: seq<string>): seq<string>
    decreases args
  {
    if args == [] then acc else CollectAll(args[1..], Collect(args[0], acc))
  }

  /** `collectVars(ast, set)`: a walk that adds every variable name to the set. */
  method CollectVars(ast: Ast, s: seq<string>) returns (s': seq<string>)
    ensures s' == Collect(ast, s)
    decreases ast
  {
    match ast
    case Var(n) =>
      if n !in s {
        s' := s + [n];
      } else {
        s' := s;
      }
    case App(_, args) =>
      s' := s;
      for k := 0 to |args|
        invariant CollectAll(args, s) == CollectAll(args[k..], s')
      {
        assert args[k..][1..] == args[k + 1..];
        s' := CollectVars(args[k], s');
      }
  }

  /** The set holds each name once, keeps what it held, and gains exactly the
      variables of the expression. */
  lemma {:induction false} CollectSpec(ast: Ast, acc: seq<string>)
    requires NoDup(acc)
    ensures NoDup(Collect(ast, acc))
    ensures Elems(Collect(ast, acc)) == Elems(acc) + VarsOf(ast)
    ensures |acc| <= |Collect(ast, acc)| && Collect(ast, acc)[..|acc|] == acc
    decreases ast
  {
    match ast
    case Var(n) =>
      if n !in acc {
        assert Elems(acc + [n]) == Elems(acc) + {n};
      }
    case App(_, args) =>
      CollectAllSpec(args, acc);
  }

  lemma {:induction false} CollectAllSpec(args: seq<Ast>, acc: seq<string>)
    requires NoDup(acc)
    ensures NoDup(CollectAll(args, acc))
    ensures Elems(CollectAll(args, acc)) == Elems(acc) + VarsOfAll(args)
    ensures |acc| <= |CollectAll(args, acc)| && CollectAll(args, acc)[..|acc|] == acc
    decreases args
  {
    if args != [] {
      var mid := Collect(args[0], acc);
      CollectSpec(args[0], acc);
      CollectAllSpec(args[1..], mid);
      var r := CollectAll(args[1..], mid);
      assert r[..|acc|] == r[..|mid|][..|acc|];
    }
  }

  /** `Array.from(set).sort()` after `collectVars(ast, new Set())`. */
  function SortedVars(ast: Ast): seq<string> {
    Sort(Collect(ast, []))
  }

  /** The variable order is the strictly ascending list of the distinct
      variable names, each exactly once. */
  lemma SortedVarsSpec(ast: Ast)
    ensures StrictlySorted(SortedVars(ast))
    ensures Elems(SortedVars(ast)) == VarsOf(ast)
    ensures NoDup(SortedVars(ast))
  {
    CollectSpec(ast, []);
    SortSpec(Collect(ast, []));
    var r := SortedVars(ast);
    forall i, j | 0 <= i < j < |r| ensures r[i] != r[j] {
      LessIrreflexive(r[i]);
    }
  }
}
