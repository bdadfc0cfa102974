/** Version strings, their numeric order, and the constraints a rule may be pinned by. */
module Versions {
  import opened Prelude
  import opened Numerals

  /* ---------- reading and writing ---------- */

  /** How many digits a string starts with. */
  function Leading(s: string): (n: nat)
    ensures n <= |s| && Digits(s[..n]) && (n < |s| ==> !IsDigit(s[n]))
  {
    if s == "" || !IsDigit(s[0]) then 0
    else
      var n := 1 + Leading(s[1..]);
      assert s[..n] == [s[0]] + s[1..][..n - 1];
      n
  }

  /** parseVersion's loop: the dotted numerals from here on. */
  function Fields(s: string): Option<seq<nat>>
    decreases |s|
  {
    var n := Leading(s);
    if n == 0 then None
    else
      var field, rest := Atoi(s[..n]), s[n..];
      if field.None? then None
      else if rest == "" || rest[0] != '.' then Some([field.value])
      else
        var more := Fields(rest[1..]);
        if more.None? then None else Some([field.value] + more.value)
  }

  function ParseVersion(s: string): Option<seq<nat>> {
    Fields(if s != "" && s[0] == 'v' then s[1..] else s)
  }

  function JoinVersion(fields: seq<nat>): (s: string)
    ensures fields != [] ==> s != "" && IsDigit(s[0])
  {
    if fields == [] then "" else if |fields| == 1 then Itoa(fields[0])
    else Itoa(fields[0]) + "." + JoinVersion(fields[1..])
  }

  /** What may follow the numerals without being read as part of them: a build variant. */
  predicate Ends(suffix: string) {
    suffix == "" || (!IsDigit(suffix[0]) && suffix[0] != '.')
  }

  predicate Representable(fields: seq<nat>) {
    fields != [] && forall i :: 0 <= i < |fields| ==> fields[i] <= MAX_INT
  }

  lemma {:induction false} LeadingOf(digits: string, rest: string)
    requires Digits(digits) && (rest == "" || !IsDigit(rest[0]))
    ensures Leading(digits + rest) == |digits|
    decreases |digits|
  {
    if digits == "" {
      assert digits + rest == rest;
    } else {
      assert (digits + rest)[1..] == digits[1..] + rest;
      LeadingOf(digits[1..], rest);
    }
  }

  lemma FieldThen(n: nat, rest: string)
    requires rest == "" || !IsDigit(rest[0])
    ensures var s := Itoa(n) + rest;
            Leading(s) == |Itoa(n)| && s[..Leading(s)] == Itoa(n) && s[Leading(s)..] == rest
            && Atoi(Itoa(n)) == if n <= MAX_INT then Some(n) else None
  {
    LeadingOf(Itoa(n), rest);
    ValueOfItoa(n);
  }

  /** Reading what was written, whatever build variant follows it, returns the fields if
      and only if there are some and each fits an integer. */
  lemma {:induction false} FieldsOfJoin(fields: seq<nat>, suffix: string)
    requires Ends(suffix) && fields != []
    ensures Fields(JoinVersion(fields) + suffix) == if Representable(fields) then Some(fields) else None
    decreases |fields|
  {
    if |fields| == 1 {
      FieldsOfOne(fields, suffix);
    } else {
      FieldsOfJoin(fields[1..], suffix);
      FieldsOfMore(fields, suffix);
    }
  }

  lemma FieldsOfOne(fields: seq<nat>, suffix: string)
    requires Ends(suffix) && |fields| == 1
    ensures Fields(JoinVersion(fields) + suffix) == if Representable(fields) then Some(fields) else None
  {
    var n := fields[0];
    assert JoinVersion(fields) == Itoa(n);
    assert Representable(fields) <==> n <= MAX_INT;
    FieldsLast(n, suffix);
    assert fields == [n];
  }

  lemma FieldsOfMore(fields: seq<nat>, suffix: string)
    requires |fields| > 1
    requires Fields(JoinVersion(fields[1..]) + suffix) == if Representable(fields[1..]) then Some(fields[1..]) else None
    ensures Fields(JoinVersion(fields) + suffix) == if Representable(fields) then Some(fields) else None
  {
    var tail := JoinVersion(fields[1..]) + suffix;
    JoinSplits(fields, suffix);
    FieldsStep(fields[0], tail);
    FieldsGrow(fields, tail);
  }

  lemma FieldsGrow(fields: seq<nat>, tail: string)
    requires |fields| > 1 && Fields(tail) == if Representable(fields[1..]) then Some(fields[1..]) else None
    ensures (if fields[0] > MAX_INT || Fields(tail).None? then None else Some([fields[0]] + Fields(tail).value))
            == if Representable(fields) then Some(fields) else None
  {
    RepresentableRest(fields);
    assert fields == [fields[0]] + fields[1..];
  }

  lemma FieldsLast(n: nat, suffix: string)
    requires Ends(suffix)
    ensures Fields(Itoa(n) + suffix) == if n <= MAX_INT then Some([n]) else None
  {
    FieldThen(n, suffix);
  }

  lemma JoinSplits(fields: seq<nat>, suffix: string)
    requires |fields| > 1
    ensures JoinVersion(fields) + suffix == Itoa(fields[0]) + ("." + (JoinVersion(fields[1..]) + suffix))
  {
    Regroup(Itoa(fields[0]), ".", JoinVersion(fields[1..]), suffix);
  }

  lemma Regroup(a: string, b: string, c: string, d: string)
    ensures a + b + c + d == a + (b + (c + d))
  {
  }

  lemma FieldsStep(n: nat, tail: string)
    ensures Fields(Itoa(n) + ("." + tail))
            == if n > MAX_INT || Fields(tail).None? then None else Some([n] + Fields(tail).value)
  {
    FieldThen(n, "." + tail);
    assert ("." + tail)[1..] == tail;
  }

  lemma RepresentableRest(fields: seq<nat>)
    requires |fields| > 1
    ensures Representable(fields) <==> fields[0] <= MAX_INT && Representable(fields[1..])
  {
    if fields[0] <= MAX_INT && Representable(fields[1..]) {
      assert forall i :: 0 < i < |fields| ==> fields[i] == fields[1..][i - 1];
    }
    assert forall i :: 0 <= i < |fields| - 1 ==> fields[1..][i] == fields[i + 1];
  }

  lemma ParseJoinIff(fields: seq<nat>, suffix: string)
    requires Ends(suffix)
    ensures ParseVersion(JoinVersion(fields) + suffix) == Some(fields) <==> Representable(fields)
  {
    var s := JoinVersion(fields) + suffix;
    if fields != [] {
      FieldsOfJoin(fields, suffix);
      assert s[0] == JoinVersion(fields)[0];
    } else {
      FieldsRepresentable(if s != "" && s[0] == 'v' then s[1..] else s);
    }
  }

  /** A leading v is not part of the numerals; a second one is not skipped. */
  lemma PrefixedReads(s: string)
    ensures s == "" || s[0] != 'v' ==> ParseVersion(['v'] + s) == ParseVersion(s)
    ensures ParseVersion("vv" + s) == None
  {
    assert (['v'] + s)[1..] == s;
    assert ("vv" + s)[1..] == ['v'] + s;
  }

  lemma {:induction false} FieldsRepresentable(s: string)
    ensures Fields(s).Some? ==> Representable(Fields(s).value)
    decreases |s|
  {
    var n := Leading(s);
    if n > 0 && n < |s| && s[n..][0] == '.' {
      FieldsRepresentable(s[n..][1..]);
    }
  }

  /** A version read from an image tag and written back reads as itself. */
  lemma ParsedRoundTrip(s: string)
    requires ParseVersion(s).Some?
    ensures ParseVersion(JoinVersion(ParseVersion(s).value)) == ParseVersion(s)
  {
    var fields := ParseVersion(s).value;
    FieldsRepresentable(if s != "" && s[0] == 'v' then s[1..] else s);
    ParseJoinIff(fields, "");
    assert JoinVersion(fields) + "" == JoinVersion(fields);
  }

  /* ---------- the order ---------- */

  function At(v: seq<nat>, i: nat): nat { if i < |v| then v[i] else 0 }

  /** compareVersions from the i-th field on. */
  function CompareFrom(a: seq<nat>, b: seq<nat>, i: nat): int
    decreases |a| + |b| - i
  {
    if i >= |a| && i >= |b| then 0
    else if At(a, i) != At(b, i) then (if At(a, i) < At(b, i) then -1 else 1)
    else CompareFrom(a, b, i + 1)
  }

  method CompareVersions(a: seq<nat>, b: seq<nat>) returns (c: int)
    ensures c == CompareFrom(a, b, 0)
  {
    var i := 0;
    while i < |a| || i < |b|
      invariant CompareFrom(a, b, 0) == CompareFrom(a, b, i)
      decreases |a| + |b| - i
    {
      var av, bv := 0, 0;
      if i < |a| { av := a[i]; }
      if i < |b| { bv := b[i]; }
      if av != bv {
        if av < bv { return -1; }
        return 1;
      }
      i := i + 1;
    }
    return 0;
  }

  /** The first field that differs decides. */
  ghost predicate Precedes(a: seq<nat>, b: seq<nat>) {
    exists k :: Splits(a, b, k)
  }

  ghost predicate Splits(a: seq<nat>, b: seq<nat>, k: nat) {
    At(a, k) < At(b, k) && forall j: nat :: j < k ==> At(a, j) == At(b, j)
  }

  ghost predicate SameVersion(a: seq<nat>, b: seq<nat>) {
    forall i: nat :: At(a, i) == At(b, i)
  }

  lemma {:induction false} CompareMeans(a: seq<nat>, b: seq<nat>, i: nat)
    requires forall j: nat :: j < i ==> At(a, j) == At(b, j)
    ensures CompareFrom(a, b, i) in {-1, 0, 1}
    ensures CompareFrom(a, b, i) == 0 <==> SameVersion(a, b)
    ensures CompareFrom(a, b, i) < 0 <==> Precedes(a, b)
    ensures CompareFrom(a, b, i) > 0 <==> Precedes(b, a)
    decreases |a| + |b| - i
  {
    if i >= |a| && i >= |b| {
      assert forall j: nat :: At(a, j) == At(b, j);
    } else if At(a, i) != At(b, i) {
      if At(a, i) < At(b, i) { assert Splits(a, b, i); } else { assert Splits(b, a, i); }
    } else {
      CompareMeans(a, b, i + 1);
    }
  }

  function Compare(a: seq<nat>, b: seq<nat>): int { CompareFrom(a, b, 0) }

  lemma PrecedesTransitive(a: seq<nat>, b: seq<nat>, c: seq<nat>)
    requires Precedes(a, b) && Precedes(b, c)
    ensures Precedes(a, c)
  {
    var k: nat :| Splits(a, b, k);
    var l: nat :| Splits(b, c, l);
    assert Splits(a, c, if k < l then k else l);
  }

  lemma PrecedesRespects(a: seq<nat>, b: seq<nat>, a': seq<nat>, b': seq<nat>)
    requires SameVersion(a, a') && SameVersion(b, b') && Precedes(a, b)
    ensures Precedes(a', b')
  {
    var k: nat :| Splits(a, b, k);
    assert Splits(a', b', k);
  }

  /** compareVersions is a total preorder. */
  lemma CompareOrders(a: seq<nat>, b: seq<nat>, c: seq<nat>)
    ensures Compare(a, b) == -Compare(b, a)
    ensures Compare(a, b) <= 0 && Compare(b, c) <= 0 ==> Compare(a, c) <= 0
    ensures Compare(a, b) == 0 ==> Compare(a, c) == Compare(b, c)
  {
    CompareMeans(a, b, 0);
    CompareMeans(b, a, 0);
    CompareMeans(b, c, 0);
    CompareMeans(a, c, 0);
    if Precedes(a, b) && Precedes(b, c) { PrecedesTransitive(a, b, c); }
    if Precedes(a, b) && SameVersion(b, c) { PrecedesRespects(a, b, a, c); }
    if SameVersion(a, b) {
      if Precedes(b, c) { PrecedesRespects(b, c, a, c); }
      if Precedes(c, b) { PrecedesRespects(c, b, c, a); }
    }
  }

  /** A version without its trailing zero fields. */
  function Trim(v: seq<nat>): (t: seq<nat>)
    ensures t != [] ==> t[|t| - 1] != 0
    ensures SameVersion(v, t)
  {
    if v == [] || v[|v| - 1] != 0 then v else Trim(v[..|v| - 1])
  }

  /** Two versions compare equal if and only if they differ by trailing zero fields alone. */
  lemma CompareZeroIff(a: seq<nat>, b: seq<nat>)
    ensures Compare(a, b) == 0 <==> Trim(a) == Trim(b)
  {
    CompareMeans(a, b, 0);
    var x, y := Trim(a), Trim(b);
    assert forall i: nat :: At(a, i) == At(x, i) && At(b, i) == At(y, i);
    if SameVersion(a, b) {
      assert forall i: nat :: At(x, i) == At(a, i) == At(b, i) == At(y, i);
      TrimmedSame(x, y);
    }
  }

  lemma TrimmedSame(x: seq<nat>, y: seq<nat>)
    requires SameVersion(x, y)
    requires (x != [] ==> x[|x| - 1] != 0) && (y != [] ==> y[|y| - 1] != 0)
    ensures x == y
  {
    assert x != [] ==> At(x, |x| - 1) == At(y, |x| - 1);
    assert y != [] ==> At(x, |y| - 1) == At(y, |y| - 1);
    assert forall i :: 0 <= i < |x| ==> x[i] == At(x, i) == At(y, i);
  }

  /* ---------- constraints ---------- */

  /** unicode.IsSpace. */
  predicate IsSpace(c: char) {
    c in {'\t', '\n', '\U{B}', '\U{C}', '\r', ' ', '\U{85}', '\U{A0}', '\U{1680}', '\U{2028}', '\U{2029}', '\U{202F}',
          '\U{205F}', '\U{3000}'}
    || '\U{2000}' <= c <= '\U{200A}'
  }

  /** The white space of the Unicode Standard, by its codes. */
  lemma SpaceCodes(c: char)
    ensures var n := c as int;
            IsSpace(c) <==> 0x9 <= n <= 0xD || n == 0x20 || n == 0x85 || n == 0xA0 || n == 0x1680
                            || 0x2000 <= n <= 0x200A || n == 0x2028 || n == 0x2029 || n == 0x202F || n == 0x205F
                            || n == 0x3000
  {
    var n := c as int;
    assert n as char == c;
  }

  /** strings.Fields: the maximal runs without white space. */
  function Words(s: string, word: string): seq<string>
    decreases |s|
  {
    if s == "" then (if word == "" then [] else [word])
    else if IsSpace(s[0]) then (if word == "" then [] else [word]) + Words(s[1..], "")
    else Words(s[1..], word + [s[0]])
  }

  predicate StartsWith(s: string, p: string) { |p| <= |s| && s[..|p|] == p }

  datatype Op = GE | LE | NE | GT | LT | EQ

  /** The operator a clause starts with and what follows it; a bare version means equality. */
  function Split(clause: string): (Op, string) {
    if StartsWith(clause, ">=") then (GE, clause[2..])
    else if StartsWith(clause, "<=") then (LE, clause[2..])
    else if StartsWith(clause, "!=") then (NE, clause[2..])
    else if StartsWith(clause, ">") then (GT, clause[1..])
    else if StartsWith(clause, "<") then (LT, clause[1..])
    else if StartsWith(clause, "=") then (EQ, clause[1..])
    else (EQ, clause)
  }

  predicate OpHolds(op: Op, cmp: int) {
    match op
    case GE => cmp >= 0
    case LE => cmp <= 0
    case NE => cmp != 0
    case GT => cmp > 0
    case LT => cmp < 0
    case EQ => cmp == 0
  }

  predicate ClauseHolds(v: seq<nat>, clause: string) {
    var (op, rest) := Split(clause);
    var bound := ParseVersion(rest);
    bound.Some? && OpHolds(op, Compare(v, bound.value))
  }

  predicate Meets(v: seq<nat>, constraint: string) {
    var clauses := Words(constraint, "");
    forall i :: 0 <= i < |clauses| ==> ClauseHolds(v, clauses[i])
  }

  predicate Satisfies(version: string, constraint: string) {
    var v := ParseVersion(version);
    v.Some? && Meets(v.value, constraint)
  }

  /** satisfies, with its loop and its early exits. */
  method SatisfiesLoop(version: string, constraint: string) returns (holds: bool)
    ensures holds == Satisfies(version, constraint)
  {
    var v := ParseVersion(version);
    if v.None? { return false; }
    var clauses := Words(constraint, "");
    for i := 0 to |clauses|
      invariant forall j :: 0 <= j < i ==> ClauseHolds(v.value, clauses[j])
    {
      var (op, rest) := Split(clauses[i]);
      var bound := ParseVersion(rest);
      if bound.None? { return false; }
      var cmp := CompareVersions(v.value, bound.value);
      if !OpHolds(op, cmp) { return false; }
    }
    return true;
  }

  /* ---------- what a constraint means ---------- */

  lemma {:induction false} WordsAppend(s: string, word: string, t: string)
    requires t == "" || IsSpace(t[0])
    ensures Words(s + t, word) == Words(s, word) + Words(t, "")
    decreases |s|
  {
    if s == "" {
      assert s + t == t;
      if t == "" { assert Words(t, "") == []; }
    } else {
      assert (s + t)[0] == s[0] && (s + t)[1..] == s[1..] + t;
      WordsAppend(s[1..], if IsSpace(s[0]) then "" else word + [s[0]], t);
    }
  }

  /** Clauses parted by white space: a version satisfies them exactly when it satisfies each part. */
  lemma ClausesJoin(version: string, a: string, space: char, b: string)
    requires IsSpace(space)
    ensures Satisfies(version, a + [space] + b) <==> Satisfies(version, a) && Satisfies(version, b)
  {
    var x, y := Words(a, ""), Words(b, "");
    var all := Words(a + [space] + b, "");
    assert a + [space] + b == a + ([space] + b);
    WordsAppend(a, "", [space] + b);
    assert ([space] + b)[1..] == b;
    assert [] + y == y;
    assert all == x + y;
    var v := ParseVersion(version);
    if v.Some? {
      assert forall i :: 0 <= i < |x| ==> all[i] == x[i];
      assert forall i :: 0 <= i < |y| ==> all[|x| + i] == y[i];
      assert forall i :: |x| <= i < |all| ==> all[i] == y[i - |x|];
    }
  }

  /** The clauses of a constraint as it is written, with a blank between them. */
  lemma BlankJoins(version: string, a: string, b: string)
    ensures Satisfies(version, a + " " + b) <==> Satisfies(version, a) && Satisfies(version, b)
  {
    ClausesJoin(version, a, ' ', b);
  }

  /** No clause asks for nothing but a version that can be read. */
  lemma NoClause(version: string)
    ensures Satisfies(version, "") <==> ParseVersion(version).Some?
  {
  }

  lemma {:induction false} OneWord(s: string, word: string)
    requires Unspaced(s) && word + s != ""
    ensures Words(s, word) == [word + s]
    decreases |s|
  {
    if s == "" {
      assert word + s == word;
    } else {
      assert (word + [s[0]]) + s[1..] == word + s;
      OneWord(s[1..], word + [s[0]]);
    }
  }

  lemma JoinReads(fields: seq<nat>)
    requires Representable(fields)
    ensures ParseVersion(JoinVersion(fields)) == Some(fields)
  {
    ParseJoinIff(fields, "");
    assert JoinVersion(fields) + "" == JoinVersion(fields);
  }

  ghost predicate IsOperator(op: string) { op in {">=", "<=", "!=", ">", "<", "=", ""} }

  predicate Unspaced(s: string) { forall i :: 0 <= i < |s| ==> !IsSpace(s[i]) }

  lemma OperatorUnspaced(op: string)
    requires IsOperator(op)
    ensures Unspaced(op)
  {
  }

  /** An operator before a text without blanks is one word. */
  lemma OneClause(op: string, bound: string)
    requires IsOperator(op) && Unspaced(bound) && op + bound != ""
    ensures Words(op + bound, "") == [op + bound]
  {
    var s := op + bound;
    OperatorUnspaced(op);
    assert forall i :: |op| <= i < |s| ==> s[i] == bound[i - |op|];
    OneWord(s, "");
    assert "" + s == s;
  }

  lemma JoinUnspaced(fields: seq<nat>)
    ensures Unspaced(JoinVersion(fields))
  {
    var s := JoinVersion(fields);
    JoinPlain(fields);
    forall i | 0 <= i < |s| ensures !IsSpace(s[i]) { assert s[i] in s; }
  }

  ghost predicate NoOperator(s: string) { s == "" || s[0] !in {'=', '<', '>', '!'} }

  lemma SplitOf(op: string, version: string)
    requires IsOperator(op) && NoOperator(version)
    ensures Split(op + version).1 == version
    ensures Split(op + version).0 == if op == ">=" then GE else if op == "<=" then LE else if op == "!=" then NE
                                     else if op == ">" then GT else if op == "<" then LT else EQ
  {
    var s := op + version;
    assert s[|op|..] == version && s[..|op|] == op;
    assert |s| >= 2 ==> s[..2] == [s[0], s[1]];
    assert s != "" ==> s[..1] == [s[0]];
    if |op| == 1 && version != "" { assert s[1] == version[0]; }
    if |op| == 0 && version != "" { assert s[0] == version[0]; }
  }

  /** A clause whose version cannot be read is met by none: the constraint fails closed. */
  lemma MalformedFails(version: string, op: string, bound: string)
    requires IsOperator(op) && op + bound != "" && NoOperator(bound) && ParseVersion(bound).None?
    requires Unspaced(bound)
    ensures !Satisfies(version, op + bound)
  {
    OneClause(op, bound);
    SplitOf(op, bound);
    assert [op + bound][0] == op + bound;
  }

  lemma ClauseMeans(a: seq<nat>, op: string, b: seq<nat>)
    requires IsOperator(op) && Representable(a) && Representable(b)
    ensures Satisfies(JoinVersion(a), op + JoinVersion(b))
            <==> OpHolds(Split(op + JoinVersion(b)).0, Compare(a, b))
  {
    JoinReads(a);
    JoinReads(b);
    JoinUnspaced(b);
    OneClause(op, JoinVersion(b));
    SplitOf(op, JoinVersion(b));
    var clauses := [op + JoinVersion(b)];
    assert clauses[0] == op + JoinVersion(b);
  }

  /** Each operator asks what it says of the fields: the first that differs decides. */
  lemma OperatorsMean(a: seq<nat>, b: seq<nat>)
    requires Representable(a) && Representable(b)
    ensures var version, bound := JoinVersion(a), JoinVersion(b);
            && (Satisfies(version, ">=" + bound) <==> !Precedes(a, b))
            && (Satisfies(version, "<=" + bound) <==> !Precedes(b, a))
            && (Satisfies(version, ">" + bound) <==> Precedes(b, a))
            && (Satisfies(version, "<" + bound) <==> Precedes(a, b))
            && (Satisfies(version, "=" + bound) <==> SameVersion(a, b))
            && (Satisfies(version, "!=" + bound) <==> !SameVersion(a, b))
            && (Satisfies(version, bound) <==> SameVersion(a, b))
  {
    CompareMeans(a, b, 0);
    OperatorMeans(a, ">=", b);
    OperatorMeans(a, "<=", b);
    OperatorMeans(a, ">", b);
    OperatorMeans(a, "<", b);
    OperatorMeans(a, "=", b);
    OperatorMeans(a, "!=", b);
    OperatorMeans(a, "", b);
    assert "" + JoinVersion(b) == JoinVersion(b);
  }

  lemma OperatorMeans(a: seq<nat>, op: string, b: seq<nat>)
    requires IsOperator(op) && Representable(a) && Representable(b)
    ensures Satisfies(JoinVersion(a), op + JoinVersion(b))
            <==> (if op == ">=" then Compare(a, b) >= 0 else if op == "<=" then Compare(a, b) <= 0
                  else if op == "!=" then Compare(a, b) != 0 else if op == ">" then Compare(a, b) > 0
                  else if op == "<" then Compare(a, b) < 0 else Compare(a, b) == 0)
  {
    ClauseMeans(a, op, b);
    SplitOf(op, JoinVersion(b));
  }

  /** Versions that differ by trailing zeros satisfy the same constraints. */
  lemma SatisfiesRespects(a: string, b: string, constraint: string)
    requires ParseVersion(a).Some? && ParseVersion(b).Some?
    requires Compare(ParseVersion(a).value, ParseVersion(b).value) == 0
    ensures Satisfies(a, constraint) == Satisfies(b, constraint)
  {
    var v, w := ParseVersion(a).value, ParseVersion(b).value;
    var clauses := Words(constraint, "");
    forall i | 0 <= i < |clauses| ensures ClauseHolds(v, clauses[i]) == ClauseHolds(w, clauses[i]) {
      var bound := ParseVersion(Split(clauses[i]).1);
      if bound.Some? { CompareOrders(v, w, bound.value); }
    }
  }

  predicate Excludes(constraint: string) {
    var clauses := Words(constraint, "");
    exists i :: 0 <= i < |clauses| && Split(clauses[i]).0 == NE
  }

  /** Without a clause that excludes one version, whatever lies between two versions that
      satisfy a constraint satisfies it too. */
  lemma SatisfiesConvex(low: string, mid: string, high: string, constraint: string)
    requires !Excludes(constraint) && Satisfies(low, constraint) && Satisfies(high, constraint)
    requires ParseVersion(mid).Some?
    requires Compare(ParseVersion(low).value, ParseVersion(mid).value) <= 0
    requires Compare(ParseVersion(mid).value, ParseVersion(high).value) <= 0
    ensures Satisfies(mid, constraint)
  {
    var l, m, h := ParseVersion(low).value, ParseVersion(mid).value, ParseVersion(high).value;
    var clauses := Words(constraint, "");
    forall i | 0 <= i < |clauses| ensures ClauseHolds(m, clauses[i]) {
      assert ClauseHolds(l, clauses[i]) && ClauseHolds(h, clauses[i]);
      assert Split(clauses[i]).0 != NE;
      Between(l, m, h, ParseVersion(Split(clauses[i]).1).value);
    }
  }

  lemma Between(l: seq<nat>, m: seq<nat>, h: seq<nat>, b: seq<nat>)
    requires Compare(l, m) <= 0 && Compare(m, h) <= 0
    ensures Compare(l, b) >= 0 ==> Compare(m, b) >= 0
    ensures Compare(l, b) > 0 ==> Compare(m, b) > 0
    ensures Compare(h, b) <= 0 ==> Compare(m, b) <= 0
    ensures Compare(h, b) < 0 ==> Compare(m, b) < 0
  {
    CompareOrders(l, m, b);
    CompareOrders(m, l, b);
    CompareOrders(m, h, b);
    CompareOrders(h, m, b);
    CompareOrders(l, b, m);
    CompareOrders(b, m, l);
    CompareOrders(b, l, m);
    CompareOrders(m, b, l);
    CompareOrders(b, h, m);
    CompareOrders(h, b, m);
    CompareOrders(m, b, h);
    CompareOrders(b, m, h);
  }

  /* ---------- versions in image references ---------- */

  /** Where a character last occurs, or the length when it does not. */
  function LastIndex(s: string, c: char): (i: nat)
    ensures i <= |s| && (i < |s| ==> s[i] == c) && forall j :: i < j < |s| ==> s[j] != c
    ensures i == |s| ==> c !in s
  {
    if s == "" then 0
    else
      var i := LastIndex(s[1..], c);
      assert s == [s[0]] + s[1..];
      if i < |s| - 1 then i + 1 else if s[0] == c then 0 else |s|
  }

  function FirstIndex(s: string, c: char): (i: nat)
    ensures i <= |s| && (i < |s| ==> s[i] == c) && forall j :: 0 <= j < i ==> s[j] != c
  {
    if s == "" || s[0] == c then 0 else 1 + FirstIndex(s[1..], c)
  }

  function TrimV(s: string): string { if s != "" && s[0] == 'v' then s[1..] else s }

  /** imageTagVersion: the version a tag starts with, in canonical form. */
  function ImageTagVersion(image: string): Option<string> {
    var named := image[..FirstIndex(image, '@')];
    var colon := LastIndex(named, ':');
    if colon == |named| || '/' in named[colon..] then None
    else
      var fields := ParseVersion(TrimV(named[colon + 1..]));
      if fields.None? then None else Some(JoinVersion(fields.value))
  }

  /** Whatever an image yields reads back as itself. */
  lemma ImageVersionReads(image: string)
    ensures ImageTagVersion(image).Some? ==>
              ParseVersion(ImageTagVersion(image).value).Some?
              && JoinVersion(ParseVersion(ImageTagVersion(image).value).value) == ImageTagVersion(image).value
  {
    if ImageTagVersion(image).Some? {
      var named := image[..FirstIndex(image, '@')];
      ParsedRoundTrip(TrimV(named[LastIndex(named, ':') + 1..]));
    }
  }

  lemma {:induction false} LastIndexOf(a: string, b: string, c: char)
    requires c !in b
    ensures LastIndex(a + [c] + b, c) == |a|
    decreases |a|
  {
    var s := a + [c] + b;
    assert s[|a|] == c;
    forall j | |a| < j < |s| ensures s[j] != c { assert s[j] == b[j - |a| - 1]; }
  }

  lemma FirstIndexOf(a: string, b: string, c: char)
    requires c !in a && (b == "" || b[0] == c)
    ensures FirstIndex(a + b, c) == |a|
  {
    assert forall j :: 0 <= j < |a| ==> (a + b)[j] == a[j];
    if b != "" { assert (a + b)[|a|] == c; }
  }

  predicate PlainTag(tag: string) { ':' !in tag && '/' !in tag && '@' !in tag }

  lemma TagFound(repository: string, tag: string, digest: string)
    requires '@' !in repository && PlainTag(tag) && (digest == "" || digest[0] == '@')
    ensures var image := repository + [':'] + tag + digest; var named := image[..FirstIndex(image, '@')];
            named == repository + [':'] + tag && LastIndex(named, ':') == |repository|
  {
    var named := repository + [':'] + tag;
    FirstIndexOf(named, digest, '@');
    assert (named + digest)[..|named|] == named;
    LastIndexOf(repository, tag, ':');
  }

  lemma TagRead(repository: string, tag: string, digest: string)
    requires '@' !in repository && PlainTag(tag) && (digest == "" || digest[0] == '@')
    ensures ImageTagVersion(repository + [':'] + tag + digest)
            == if ParseVersion(TrimV(tag)).None? then None else Some(JoinVersion(ParseVersion(TrimV(tag)).value))
  {
    TagFound(repository, tag, digest);
    var named := repository + [':'] + tag;
    assert named[|repository| + 1..] == tag && named[|repository|..] == [':'] + tag;
  }

  /** A repository, a tag that is a version with or without a leading v and with any build
      variant, and any digest: the version is found, whatever the repository's own colons
      and slashes. */
  lemma TaggedVersionFound(repository: string, prefixed: bool, fields: seq<nat>, suffix: string, digest: string)
    requires Representable(fields) && Ends(suffix) && PlainTag(suffix)
    requires '@' !in repository && (digest == "" || digest[0] == '@')
    ensures var version := JoinVersion(fields) + suffix;
            ImageTagVersion(repository + [':'] + (if prefixed then ['v'] + version else version) + digest)
              == Some(JoinVersion(fields))
  {
    var version := JoinVersion(fields) + suffix;
    var tag := if prefixed then ['v'] + version else version;
    JoinPlain(fields);
    assert PlainTag(version) && PlainTag(tag);
    TagRead(repository, tag, digest);
    assert version[0] == JoinVersion(fields)[0];
    assert TrimV(tag) == version by { if prefixed { assert tag[1..] == version; } }
    ParseJoinIff(fields, suffix);
  }

  lemma {:induction false} JoinPlain(fields: seq<nat>)
    ensures forall c :: c in JoinVersion(fields) ==> IsDigit(c) || c == '.'
    decreases |fields|
  {
    if |fields| > 1 { JoinPlain(fields[1..]); }
    if |fields| == 1 { assert forall c :: c in Itoa(fields[0]) ==> IsDigit(c); }
    if fields != [] { assert forall c :: c in Itoa(fields[0]) ==> IsDigit(c); }
  }
}
