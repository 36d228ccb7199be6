/** `generate_triuth_table` and `process` of main.py: the names of an
    expression are its non-keyword tokens; row `i` of the table binds them,
    in the set's iteration order, to the base-3 digits of `i` (most
    significant first, 0 as 'r', 1 as 'g', 2 as 'e') and records what
    `parse_expression` returns under that binding. */
module TriuthTable {
  import opened Results
  import Text
  import opened Triuth

  // ---------- Python's str.split() and str.strip() ----------

  /** The characters `str.isspace()` accepts. */
  predicate IsPySpace(c: char) {
    c == ' ' || ('\t' <= c <= '\r') || ('\U{1c}' <= c <= '\U{1f}') || c == '\U{85}' || c == '\U{a0}'
    || c == '\U{1680}' || ('\U{2000}' <= c <= '\U{200a}') || c == '\U{2028}' || c == '\U{2029}'
    || c == '\U{202f}' || c == '\U{205f}' || c == '\U{3000}'
  }

  predicate Blank(s: string) {
    forall k :: 0 <= k < |s| ==> IsPySpace(s[k])
  }

  /** The characters of `s` that are not whitespace, in order. */
  function NonSpace(s: string): string {
    if s == [] then [] else (if IsPySpace(s[0]) then [] else [s[0]]) + NonSpace(s[1..])
  }

  /** Splitting the rest `s` with the word `cur` under way. */
  function Words(s: string, cur: string): seq<string> {
    if s == [] then (if cur == [] then [] else [cur])
    else if IsPySpace(s[0]) then (if cur == [] then Words(s[1..], []) else [cur] + Words(s[1..], []))
    else Words(s[1..], cur + [s[0]])
  }

  lemma {:induction false} WordsShape(s: string, cur: string)
    requires NonSpace(cur) == cur
    ensures forall k :: 0 <= k < |Words(s, cur)| ==> Words(s, cur)[k] != [] && NonSpace(Words(s, cur)[k]) == Words(s, cur)[k]
  {
    if s == [] {
    } else if IsPySpace(s[0]) {
      WordsShape(s[1..], []);
    } else {
      NonSpaceConcat(cur, [s[0]]);
      assert NonSpace([s[0]]) == [s[0]] + NonSpace([]);
      WordsShape(s[1..], cur + [s[0]]);
    }
  }

  /** `s.split()`: the maximal runs of non-whitespace characters. */
  function Split(s: string): seq<string> {
    Words(s, [])
  }

  lemma {:induction false} NonSpaceConcat(a: string, b: string)
    ensures NonSpace(a + b) == NonSpace(a) + NonSpace(b)
  {
    if a != [] {
      assert (a + b)[1..] == a[1..] + b;
      NonSpaceConcat(a[1..], b);
    } else {
      assert a + b == b;
    }
  }

  lemma {:induction false} WordsContent(s: string, cur: string)
    ensures Text.Concat(Words(s, cur)) == cur + NonSpace(s)
  {
    if s == [] {
      assert Text.Concat([cur]) == cur + Text.Concat([]);
    } else if IsPySpace(s[0]) {
      WordsContent(s[1..], []);
      assert NonSpace(s) == NonSpace(s[1..]);
      if cur != [] {
        var w := Words(s[1..], []);
        assert ([cur] + w)[0] == cur && ([cur] + w)[1..] == w;
      }
    } else {
      WordsContent(s[1..], cur + [s[0]]);
      assert NonSpace(s) == [s[0]] + NonSpace(s[1..]);
      assert cur + [s[0]] + NonSpace(s[1..]) == cur + ([s[0]] + NonSpace(s[1..]));
    }
  }

  /** The words are non-empty, hold no whitespace, and together are exactly
      the non-whitespace characters of `s`, in order; there are none exactly
      when `s` is blank. */
  lemma SplitSpec(s: string)
    ensures forall k :: 0 <= k < |Split(s)| ==> Split(s)[k] != [] && NonSpace(Split(s)[k]) == Split(s)[k]
    ensures Text.Concat(Split(s)) == NonSpace(s)
    ensures Split(s) == [] <==> Blank(s)
  {
    WordsShape(s, []);
    WordsContent(s, []);
    if Split(s) != [] {
      assert Split(s)[0] != [];
    }
    BlankNonSpace(s);
  }

  lemma {:induction false} BlankNonSpace(s: string)
    ensures NonSpace(s) == [] <==> Blank(s)
  {
    if s != [] {
      BlankNonSpace(s[1..]);
      assert Blank(s) <==> IsPySpace(s[0]) && Blank(s[1..]);
    }
  }

  function StripStart(s: string): string {
    if s != [] && IsPySpace(s[0]) then StripStart(s[1..]) else s
  }

  function StripEnd(s: string): string {
    if s != [] && IsPySpace(s[|s| - 1]) then StripEnd(s[..|s| - 1]) else s
  }

  /** `s.strip()`. */
  function Strip(s: string): string {
    StripEnd(StripStart(s))
  }

  lemma {:induction false} StripStartShape(s: string)
    ensures |StripStart(s)| <= |s| && StripStart(s) == s[|s| - |StripStart(s)|..]
  {
    if s != [] && IsPySpace(s[0]) {
      StripStartShape(s[1..]);
    }
  }

  lemma {:induction false} StripEndShape(s: string)
    ensures |StripEnd(s)| <= |s| && StripEnd(s) == s[..|StripEnd(s)|]
  {
    if s != [] && IsPySpace(s[|s| - 1]) {
      StripEndShape(s[..|s| - 1]);
    }
  }

  lemma {:induction false} StripStartSpec(s: string)
    ensures |StripStart(s)| <= |s| && StripStart(s) == s[|s| - |StripStart(s)|..]
    ensures StripStart(s) == [] <==> Blank(s)
    ensures StripStart(s) != [] ==> !IsPySpace(StripStart(s)[0])
    ensures Blank(s[..|s| - |StripStart(s)|])
  {
    StripStartShape(s);
    StripStartFirst(s);
    StripStartCut(s);
    if StripStart(s) == [] {
      assert s[..|s| - |StripStart(s)|] == s;
    } else {
      assert !Blank(s) by {
        assert s[|s| - |StripStart(s)|] == StripStart(s)[0];
      }
    }
  }

  /** What `lstrip` keeps starts with a non-whitespace character. */
  lemma {:induction false} StripStartFirst(s: string)
    ensures StripStart(s) != [] ==> !IsPySpace(StripStart(s)[0])
  {
    if s != [] && IsPySpace(s[0]) {
      StripStartFirst(s[1..]);
    }
  }

  /** What `lstrip` cuts is whitespace. */
  lemma {:induction false} StripStartCut(s: string)
    ensures |StripStart(s)| <= |s|
    ensures forall k :: 0 <= k < |s| - |StripStart(s)| ==> IsPySpace(s[k])
  {
    StripStartShape(s);
    if s != [] && IsPySpace(s[0]) {
      var t := s[1..];
      StripStartCut(t);
      forall k | 0 <= k < |s| - |StripStart(s)| ensures IsPySpace(s[k]) {
        if k > 0 {
          assert s[k] == t[k - 1];
        }
      }
    }
  }

  lemma {:induction false} StripEndSpec(s: string)
    ensures |StripEnd(s)| <= |s| && StripEnd(s) == s[..|StripEnd(s)|]
    ensures StripEnd(s) == [] <==> Blank(s)
    ensures StripEnd(s) != [] ==> !IsPySpace(StripEnd(s)[|StripEnd(s)| - 1])
    ensures Blank(s[|StripEnd(s)|..])
  {
    StripEndShape(s);
    StripEndLast(s);
    StripEndCut(s);
    if StripEnd(s) == [] {
      assert s[|StripEnd(s)|..] == s;
    } else {
      assert !Blank(s) by {
        assert s[|StripEnd(s)| - 1] == StripEnd(s)[|StripEnd(s)| - 1];
      }
    }
  }

  /** What `rstrip` keeps ends with a non-whitespace character. */
  lemma {:induction false} StripEndLast(s: string)
    ensures StripEnd(s) != [] ==> !IsPySpace(StripEnd(s)[|StripEnd(s)| - 1])
  {
    if s != [] && IsPySpace(s[|s| - 1]) {
      StripEndLast(s[..|s| - 1]);
    }
  }

  /** What `rstrip` cuts is whitespace. */
  lemma {:induction false} StripEndCut(s: string)
    ensures |StripEnd(s)| <= |s|
    ensures forall k :: |StripEnd(s)| <= k < |s| ==> IsPySpace(s[k])
  {
    StripEndShape(s);
    if s != [] && IsPySpace(s[|s| - 1]) {
      var t := s[..|s| - 1];
      StripEndCut(t);
      forall k | |StripEnd(s)| <= k < |s| ensures IsPySpace(s[k]) {
        if k < |s| - 1 {
          assert s[k] == t[k];
        }
      }
    }
  }

  /** `s.strip()` is empty exactly when `s` is blank. */
  lemma StripBlank(s: string)
    ensures Strip(s) == [] <==> Blank(s)
  {
    var t := StripStart(s);
    StripStartSpec(s);
    StripEndSpec(t);
    if t != [] {
      assert !IsPySpace(t[0]);
    }
  }

  /** `s.strip()` cuts only whitespace, on either side of a slice of `s`. */
  lemma StripSlice(s: string)
    ensures exists i, j :: 0 <= i <= j <= |s| && Strip(s) == s[i..j] && Blank(s[..i]) && Blank(s[j..])
  {
    var t := StripStart(s);
    var u := StripEnd(t);
    StripStartSpec(s);
    StripEndSpec(t);
    var i := |s| - |t|;
    var j := i + |u|;
    assert t == s[i..];
    assert u == s[i..j];
    assert s[j..] == t[|u|..];
  }

  /** A non-empty `s.strip()` starts and ends with a non-whitespace
      character. */
  lemma StripEdges(s: string)
    ensures Strip(s) != [] ==> !IsPySpace(Strip(s)[0]) && !IsPySpace(Strip(s)[|Strip(s)| - 1])
  {
    var t := StripStart(s);
    var u := StripEnd(t);
    StripStartSpec(s);
    StripEndSpec(t);
    if u != [] {
      assert u[0] == t[0];
    }
  }

  // ---------- The names of an expression ----------

  /** `variables`: the tokens outside the operator and constant keywords. */
  function Variables(expression: string): set<string> {
    set w | w in Split(expression) && w !in Keywords
  }

  /** `order` lists the names of `expression` once each: an iteration
      order of the set `variables`. */
  predicate IterationOrder(order: seq<string>, expression: string) {
    Text.NoDup(order) && Text.Elems(order) == Variables(expression)
  }

  // ---------- Base-3 rows ----------

  function Pow3(n: nat): (r: nat)
    ensures r >= 1
  {
    if n == 0 then 1 else 3 * Pow3(n - 1)
  }

  /** `i // 3 ** j % 3`. */
  function Digit(i: nat, j: nat): nat {
    (i / Pow3(j)) % 3
  }

  /** `map_dict`. */
  function DigitVal(d: nat): Val {
    if d == 0 then R else if d == 1 then G else E
  }

  /** The values of row `i` for `n` names, most significant digit first. */
  function Values(i: nat, n: nat): seq<Val> {
    seq(n, p requires 0 <= p < n => DigitVal(Digit(i, n - 1 - p)))
  }

  /** `dict(zip(keys, values))`: later keys override earlier ones. */
  function Zip(keys: seq<string>, values: seq<Val>): map<string, Val>
    requires |keys| == |values|
  {
    if keys == [] then map[]
    else Zip(keys[..|keys| - 1], values[..|keys| - 1])[keys[|keys| - 1] := values[|keys| - 1]]
  }

  /** The binding of row `i`, with the names in iteration order `order`. */
  function Mapping(order: seq<string>, i: nat): map<string, Val> {
    Zip(order, Values(i, |order|))
  }

  /** The base-3 number whose digits, most significant first, are the
      values of `s` ('r' as 0, 'g' as 1, 'e' as 2). */
  function Encode(s: seq<Val>): nat {
    if s == [] then 0 else 3 * Encode(s[..|s| - 1]) + Code(s[|s| - 1])
  }

  function Code(v: Val): nat {
    match v
    case R => 0
    case G => 1
    case E => 2
    case B(_) => 0
  }

  lemma {:induction false} ZipSpec(keys: seq<string>, values: seq<Val>)
    requires |keys| == |values| && Text.NoDup(keys)
    ensures Zip(keys, values).Keys == Text.Elems(keys)
    ensures forall p :: 0 <= p < |keys| ==> Zip(keys, values)[keys[p]] == values[p]
  {
    if keys != [] {
      var n := |keys| - 1;
      ZipSpec(keys[..n], values[..n]);
      assert keys == keys[..n] + [keys[n]];
      forall p | 0 <= p < n ensures keys[p] != keys[n] && keys[..n][p] == keys[p] {}
    }
  }

  lemma MulAdd(d: nat, a: nat, k: nat)
    ensures d * (a + k) == d * a + d * k
  {
  }

  lemma MulAtLeast(d: nat, k: nat)
    requires k >= 1
    ensures d * k >= d
  {
    MulAdd(d, 1, k - 1);
  }

  /** Euclidean division has one quotient. */
  lemma DivUnique(x: nat, d: nat, q: nat, r: nat)
    requires d > 0 && x == d * q + r && r < d
    ensures x / d == q
  {
    var q', r' := x / d, x % d;
    if q > q' {
      MulAdd(d, q', q - q');
      MulAtLeast(d, q - q');
    } else if q < q' {
      MulAdd(d, q, q' - q);
      MulAtLeast(d, q' - q);
    }
  }

  lemma DivDiv(i: nat, b: nat)
    requires b > 0
    ensures i / (3 * b) == (i / 3) / b
  {
    var q := (i / 3) / b;
    var r2 := (i / 3) % b;
    assert i == 3 * (i / 3) + i % 3;
    assert i / 3 == b * q + r2;
    assert i == (3 * b) * q + (3 * r2 + i % 3);
    DivUnique(i, 3 * b, q, 3 * r2 + i % 3);
  }

  /** The last digit of row `i` is `i % 3`; the others are the digits of
      `i // 3`. */
  lemma ValuesStep(i: nat, n: nat)
    requires n >= 1
    ensures Values(i, n) == Values(i / 3, n - 1) + [DigitVal(i % 3)]
  {
    var s, t := Values(i, n), Values(i / 3, n - 1) + [DigitVal(i % 3)];
    forall p | 0 <= p < n ensures s[p] == t[p] {
      if p < n - 1 {
        assert Pow3(n - 1 - p) == 3 * Pow3(n - 2 - p);
        DivDiv(i, Pow3(n - 2 - p));
        assert Digit(i, n - 1 - p) == Digit(i / 3, n - 2 - p);
      } else {
        assert Digit(i, 0) == i % 3;
      }
    }
  }

  /** Reading the values of row `i` back as a base-3 number gives `i`. */
  lemma {:induction false} EncodeValues(i: nat, n: nat)
    requires i < Pow3(n)
    ensures Encode(Values(i, n)) == i
  {
    if n > 0 {
      ValuesStep(i, n);
      var s := Values(i, n);
      assert s[..n - 1] == Values(i / 3, n - 1);
      EncodeValues(i / 3, n - 1);
    }
  }

  /** Every sequence of 'r', 'g', 'e' is the row of its base-3 number, which
      is below `3 ** n`. */
  lemma {:induction false} ValuesEncode(s: seq<Val>)
    requires forall k :: 0 <= k < |s| ==> IsRge(s[k])
    ensures Encode(s) < Pow3(|s|)
    ensures Values(Encode(s), |s|) == s
  {
    if s != [] {
      var n := |s| - 1;
      var e := Encode(s[..n]);
      ValuesEncode(s[..n]);
      var x := 3 * e + Code(s[n]);
      assert x / 3 == e && x % 3 == Code(s[n]);
      ValuesStep(x, |s|);
      assert s == s[..n] + [s[n]];
    }
  }

  /** Row `i` binds exactly the names, each to 'r', 'g' or 'e', the name at
      position `p` to digit `n - 1 - p` of `i`. */
  lemma MappingDigits(order: seq<string>, i: nat)
    requires Text.NoDup(order)
    ensures Mapping(order, i).Keys == Text.Elems(order)
    ensures forall p :: 0 <= p < |order| ==> Mapping(order, i)[order[p]] == DigitVal(Digit(i, |order| - 1 - p))
    ensures forall x :: x in Mapping(order, i) ==> IsRge(Mapping(order, i)[x])
  {
    ZipSpec(order, Values(i, |order|));
  }

  /** Distinct rows bind differently. */
  lemma MappingInjective(order: seq<string>, i: nat, j: nat)
    requires Text.NoDup(order) && i < Pow3(|order|) && j < Pow3(|order|)
    requires Mapping(order, i) == Mapping(order, j)
    ensures i == j
  {
    var n := |order|;
    ZipSpec(order, Values(i, n));
    ZipSpec(order, Values(j, n));
    assert Values(i, n) == Values(j, n) by {
      forall p | 0 <= p < n ensures Values(i, n)[p] == Values(j, n)[p] {
        assert Mapping(order, i)[order[p]] == Mapping(order, j)[order[p]];
      }
    }
    EncodeValues(i, n);
    EncodeValues(j, n);
  }

  /** Every binding of the names to 'r', 'g', 'e' is the binding of exactly
      one row below `3 ** n`. */
  lemma EveryBindingOnce(order: seq<string>, a: map<string, Val>)
    requires Text.NoDup(order) && a.Keys == Text.Elems(order)
    requires forall x :: x in a ==> IsRge(a[x])
    ensures exists i :: 0 <= i < Pow3(|order|) && Mapping(order, i) == a
    ensures forall i, j :: 0 <= i < Pow3(|order|) && 0 <= j < Pow3(|order|) && Mapping(order, i) == a && Mapping(order, j) == a ==> i == j
  {
    var n := |order|;
    var s := seq(n, p requires 0 <= p < n => a[order[p]]);
    ValuesEncode(s);
    var i := Encode(s);
    ZipSpec(order, s);
    assert Mapping(order, i) == a by {
      forall x | x in a ensures Mapping(order, i)[x] == a[x] {
        var p :| 0 <= p < n && order[p] == x;
      }
    }
    forall i, j | 0 <= i < Pow3(n) && 0 <= j < Pow3(n) && Mapping(order, i) == a && Mapping(order, j) == a
      ensures i == j
    {
      MappingInjective(order, i, j);
    }
  }

  // ---------- The table ----------

  /** One `print(mapping, result)` line, before it is formatted. */
  datatype Row = Row(mapping: map<string, Val>, result: Val)

  /** Row `i`, or the exception `parse_expression` raises on it. */
  function RowAt(tokens: seq<string>, order: seq<string>, i: nat): Result<Row, PyError> {
    var mapping := Mapping(order, i);
    match ParseExpression(tokens, 0, mapping)
    case Err(e) => Err(e)
    case Ok((v, _)) => Ok(Row(mapping, v))
  }

  /** Rows `0 .. k - 1` in order, or the first exception among them. */
  function RowsUpTo(tokens: seq<string>, order: seq<string>, k: nat): Result<seq<Row>, PyError> {
    if k == 0 then Ok([])
    else
      match RowsUpTo(tokens, order, k - 1)
      case Err(e) => Err(e)
      case Ok(rows) =>
        match RowAt(tokens, order, k - 1)
        case Err(e) => Err(e)
        case Ok(row) => Ok(rows + [row])
  }

  /** What `generate_triuth_table(expression)` writes, row by row, or the
      exception it raises, with the names iterated in `order`. */
  function Table(expression: string, order: seq<string>): Result<seq<Row>, PyError> {
    RowsUpTo(Split(expression), order, Pow3(|order|))
  }

  lemma {:induction false} RowsUpToSpec(tokens: seq<string>, order: seq<string>, k: nat)
    ensures RowsUpTo(tokens, order, k).Ok? ==>
      var rows := RowsUpTo(tokens, order, k).value;
      |rows| == k && forall i :: 0 <= i < k ==> RowAt(tokens, order, i) == Ok(rows[i])
    ensures RowsUpTo(tokens, order, k).Err? ==>
      exists i :: 0 <= i < k && RowAt(tokens, order, i) == Err(RowsUpTo(tokens, order, k).error)
        && forall j :: 0 <= j < i ==> RowAt(tokens, order, j).Ok?
    ensures RowsUpTo(tokens, order, k).Ok? <==> forall i :: 0 <= i < k ==> RowAt(tokens, order, i).Ok?
  {
    if k > 0 {
      RowsUpToSpec(tokens, order, k - 1);
      if RowsUpTo(tokens, order, k - 1).Ok? && RowAt(tokens, order, k - 1).Err? {
        assert forall j :: 0 <= j < k - 1 ==> RowAt(tokens, order, j).Ok?;
      }
    }
  }

  /** The table has `3 ** n` rows; row `i` binds exactly the expression's
      names, each to 'r', 'g' or 'e', as the digits of `i` say, and holds
      the value of the expression under that binding. */
  lemma TableRows(expression: string, order: seq<string>)
    requires IterationOrder(order, expression)
    ensures Table(expression, order).Ok? ==>
      var rows := Table(expression, order).value;
      |rows| == Pow3(|order|)
      && forall i :: 0 <= i < |rows| ==>
           rows[i].mapping == Mapping(order, i) && rows[i].mapping.Keys == Variables(expression)
           && (forall x :: x in rows[i].mapping ==> IsRge(rows[i].mapping[x]))
           && ParseExpression(Split(expression), 0, rows[i].mapping).Ok?
           && ParseExpression(Split(expression), 0, rows[i].mapping).value.0 == rows[i].result
  {
    var tokens := Split(expression);
    RowsUpToSpec(tokens, order, Pow3(|order|));
    if Table(expression, order).Ok? {
      var rows := Table(expression, order).value;
      forall i | 0 <= i < |rows|
        ensures rows[i].mapping == Mapping(order, i) && rows[i].mapping.Keys == Variables(expression)
        ensures forall x :: x in rows[i].mapping ==> IsRge(rows[i].mapping[x])
        ensures ParseExpression(tokens, 0, rows[i].mapping).Ok?
        ensures ParseExpression(tokens, 0, rows[i].mapping).value.0 == rows[i].result
      {
        assert RowAt(tokens, order, i) == Ok(rows[i]);
        MappingDigits(order, i);
      }
    }
  }

  /** The exception of the table is the one raised by the first row that
      raises; every earlier row evaluates. */
  lemma TableError(expression: string, order: seq<string>)
    ensures Table(expression, order).Err? ==>
      exists i :: 0 <= i < Pow3(|order|)
        && ParseExpression(Split(expression), 0, Mapping(order, i)) == Err(Table(expression, order).error)
        && forall j :: 0 <= j < i ==> ParseExpression(Split(expression), 0, Mapping(order, j)).Ok?
  {
    var tokens := Split(expression);
    RowsUpToSpec(tokens, order, Pow3(|order|));
    if Table(expression, order).Err? {
      var i :| 0 <= i < Pow3(|order|) && RowAt(tokens, order, i) == Err(Table(expression, order).error)
        && forall j :: 0 <= j < i ==> RowAt(tokens, order, j).Ok?;
      forall j | 0 <= j < i ensures ParseExpression(tokens, 0, Mapping(order, j)).Ok? {
        assert RowAt(tokens, order, j).Ok?;
      }
    }
  }

  /** Every binding of the names to 'r', 'g', 'e' is in exactly one row. */
  lemma TableCoversOnce(expression: string, order: seq<string>, a: map<string, Val>)
    requires IterationOrder(order, expression)
    requires Table(expression, order).Ok?
    requires a.Keys == Variables(expression) && forall x :: x in a ==> IsRge(a[x])
    ensures var rows := Table(expression, order).value;
      (exists i :: 0 <= i < |rows| && rows[i].mapping == a)
      && forall i, j :: 0 <= i < |rows| && 0 <= j < |rows| && rows[i].mapping == a && rows[j].mapping == a ==> i == j
  {
    var rows := Table(expression, order).value;
    TableRows(expression, order);
    EveryBindingOnce(order, a);
    var i :| 0 <= i < Pow3(|order|) && Mapping(order, i) == a;
    assert rows[i].mapping == a;
    forall i, j | 0 <= i < |rows| && 0 <= j < |rows| && rows[i].mapping == a && rows[j].mapping == a
      ensures i == j
    {
      assert Mapping(order, i) == a && Mapping(order, j) == a;
    }
  }

  /** Since every name of the expression is bound in every row, the table
      never raises `KeyError`. */
  lemma TableNoKeyError(expression: string, order: seq<string>)
    requires IterationOrder(order, expression)
    ensures Table(expression, order) != Err(KeyError)
  {
    var tokens := Split(expression);
    TableError(expression, order);
    if Table(expression, order).Err? {
      var i :| 0 <= i < Pow3(|order|) && ParseExpression(tokens, 0, Mapping(order, i)) == Err(Table(expression, order).error);
      MappingDigits(order, i);
      assert forall k :: 0 <= k < |tokens| && tokens[k] !in Keywords ==> tokens[k] in Variables(expression);
      NoKeyError(tokens, 0, Mapping(order, i));
    }
  }

  /** Once a row raises, the table raises the same exception. */
  lemma {:induction false} RowsUpToErr(tokens: seq<string>, order: seq<string>, k: nat, total: nat)
    requires k <= total && RowsUpTo(tokens, order, k).Err?
    ensures RowsUpTo(tokens, order, total) == RowsUpTo(tokens, order, k)
    decreases total - k
  {
    if k < total {
      RowsUpToErr(tokens, order, k + 1, total);
    }
  }

  /** The digit list of row `i`: `i // 3 ** j % 3` for `j` from `n - 1`
      down to 0, through `map_dict`. */
  method RowValues(i: nat, n: nat) returns (values: seq<Val>)
    ensures values == Values(i, n)
  {
    values := [];
    var j := n;
    while j > 0
      invariant 0 <= j <= n
      invariant values == Values(i, n)[..n - j]
    {
      j := j - 1;
      assert Values(i, n)[..n - j] == Values(i, n)[..n - j - 1] + [DigitVal(Digit(i, j))];
      values := values + [DigitVal(i / Pow3(j) % 3)];
    }
  }

  /** One iteration of the row loop: the binding of row `i` and what
      `parse_expression` returns under it. */
  method ComputeRow(tokens: seq<string>, order: seq<string>, i: nat) returns (row: Result<Row, PyError>)
    ensures row == RowAt(tokens, order, i)
  {
    var values := RowValues(i, |order|);
    var mapping := Zip(order, values);
    var parsed := ParseExpression(tokens, 0, mapping);
    if parsed.Err? {
      return Err(parsed.error);
    }
    return Ok(Row(mapping, parsed.value.0));
  }

  /** The row loop of `generate_triuth_table`: `3 ** num_vars` rows, each
      running `parse_expression` on `tokens` under the zipped binding; the
      first exception ends it. */
  method GenerateRows(tokens: seq<string>, order: seq<string>) returns (r: Result<seq<Row>, PyError>)
    ensures r == RowsUpTo(tokens, order, Pow3(|order|))
  {
    var total := Pow3(|order|);
    var rows: seq<Row> := [];
    for i := 0 to total
      invariant RowsUpTo(tokens, order, i) == Ok(rows)
    {
      var row := ComputeRow(tokens, order, i);
      if row.Err? {
        RowsUpToErr(tokens, order, i + 1, total);
        return Err(row.error);
      }
      rows := rows + [row.value];
    }
    return Ok(rows);
  }

  /** `generate_triuth_table(expression)`, with `variables` iterated in
      `order`. */
  method GenerateTable(expression: string, order: seq<string>) returns (r: Result<seq<Row>, PyError>)
    requires IterationOrder(order, expression)
    ensures r == Table(expression, order)
  {
    r := GenerateRows(Split(expression), order);
  }

  // ---------- process ----------

  datatype Response = Prompt | Answer(expression: string, rows: seq<Row>)

  function PromptText(): string {
    "Please type a prefix expression using process spaces operators and any symbols for variables."
  }

  /** `process(s)`: the prompt for blank input, otherwise the stripped
      expression and its table (the exception propagates). */
  function Process(s: string, order: seq<string>): Result<Response, PyError> {
    var expression := Strip(s);
    if expression == [] then Ok(Prompt)
    else
      match Table(expression, order)
      case Err(e) => Err(e)
      case Ok(rows) => Ok(Answer(expression, rows))
  }

  /** The prompt comes back exactly for blank or whitespace-only input;
      otherwise the table is that of the input with the surrounding
      whitespace removed, which is non-empty and neither starts nor ends
      with whitespace. */
  lemma ProcessSpec(s: string, order: seq<string>)
    ensures Process(s, order) == Ok(Prompt) <==> Blank(s)
    ensures !Blank(s) ==>
      var t := Strip(s);
      t != [] && !IsPySpace(t[0]) && !IsPySpace(t[|t| - 1])
      && match Table(t, order)
         case Err(e) => Process(s, order) == Err(e)
         case Ok(rows) => Process(s, order) == Ok(Answer(t, rows))
  {
    StripBlank(s);
    StripEdges(s);
  }
}
