/** The random CNF-SAT generator `random_SAT` with its helpers `rint` and
    `rbool`. The C library's `rand()` is an injected stream of draws,
    consumed left to right; each draw is a non-negative integer, as `rand()`
    returns. Where the program would call `rand()` forever (never finding K
    distinct variables, for instance when K > N) the model runs out of
    draws and returns `None`. */
module Generator {
  import opened Optional
  import opened Format
  import opened Dimacs

  /** `rbool()`: the parity of the draw. */
  function RBool(draw: nat): (b: int)
    ensures b == 0 || b == 1
  {
    draw % 2
  }

  /** `rint(i)`: a variable index in [1, i] from one draw. For a
      non-negative draw and a positive `i`, C's `%` agrees with Dafny's. */
  function RInt(draw: nat, i: int): (r: int)
    requires 0 < i
    ensures 1 <= r <= i
  {
    draw % i + 1
  }

  function Abs(x: int): nat {
    if x < 0 then -x else x
  }

  /** The literal for variable `v` when the coin flip gave `b`:
      negated exactly when `b` is 0. */
  function Sign(v: int, b: int): (l: int)
    requires 1 <= v
    ensures Abs(l) == v
    ensures l < 0 <==> b == 0
  {
    if b != 0 then v else -v
  }

  /** The text the source appends per literal, `(rbool() ? "" : "-") + to_string(v)`,
      is the decimal text of the signed literal. */
  lemma SignText(v: int, b: int)
    requires 1 <= v
    ensures (if b != 0 then "" else "-") + IntToString(v) == IntToString(Sign(v, b))
  {
  }

  predicate InRange(s: seq<int>, n: int) {
    forall i :: 0 <= i < |s| ==> 1 <= s[i] <= n
  }

  predicate Distinct(s: seq<int>) {
    forall i, j :: 0 <= i < j < |s| ==> s[i] != s[j]
  }

  /** The clause invariant: exactly `k` literals whose variables are
      pairwise distinct and lie in [1, n]. */
  predicate WellFormed(c: Clause, n: int, k: int) {
    && |c| == k
    && (forall i :: 0 <= i < |c| ==> 1 <= Abs(c[i]) <= n)
    && (forall i, j :: 0 <= i < j < |c| ==> Abs(c[i]) != Abs(c[j]))
  }

  /** The rejection loop from the state where `chosen` are the variables
      accepted so far and the next draw is `draws[pos]`: a draw already
      accepted is skipped, a fresh one is appended, until `k` are accepted.
      Yields the accepted variables and the position of the next draw. */
  function PickVars(draws: seq<nat>, pos: nat, n: int, k: int, chosen: seq<int>): (r: Option<(seq<int>, nat)>)
    requires 1 <= n
    ensures r.Some? ==> |chosen| <= |r.value.0| && k <= |r.value.0| && pos <= r.value.1
    ensures r.None? ==> |chosen| < k
    decreases |draws| - pos
  {
    if |chosen| >= k then Some((chosen, pos))
    else if pos >= |draws| then None
    else
      var v := RInt(draws[pos], n);
      if v in chosen then PickVars(draws, pos + 1, n, k, chosen)
      else PickVars(draws, pos + 1, n, k, chosen + [v])
  }

  /** Gives each variable the sign of one coin flip, in order. */
  function PickSigns(draws: seq<nat>, pos: nat, vars: seq<int>): (r: Option<(Clause, nat)>)
    requires forall i :: 0 <= i < |vars| ==> 1 <= vars[i]
    ensures r.Some? <==> pos + |vars| <= |draws|
    ensures r.Some? ==> var (lits, p) := r.value;
      && |lits| == |vars| && p == pos + |vars|
      && forall i :: 0 <= i < |vars| ==> Abs(lits[i]) == vars[i] && (lits[i] < 0 <==> draws[pos + i] % 2 == 0)
  {
    if pos + |vars| > |draws| then None
    else Some((seq(|vars|, i requires 0 <= i < |vars| => Sign(vars[i], RBool(draws[pos + i]))), pos + |vars|))
  }

  /** One clause: the first variable is accepted unconditionally, the rest
      by rejection, then the signs. */
  function GenClause(draws: seq<nat>, pos: nat, n: int, k: int): (r: Option<(Clause, nat)>)
    requires 1 <= n && 1 <= k
    ensures r.Some? ==> |r.value.0| == k && pos < r.value.1 <= |draws|
  {
    match ChooseSpec(draws, pos, n, k)
    case None => None
    case Some((vars, p)) =>
      PickVarsResult(draws, pos + 1, n, k, [RInt(draws[pos], n)]);
      PickSigns(draws, p, vars)
  }

  /** The variables of one clause. */
  function ChooseSpec(draws: seq<nat>, pos: nat, n: int, k: int): (r: Option<(seq<int>, nat)>)
    requires 1 <= n
    ensures r.Some? ==> 1 <= |r.value.0| && k <= |r.value.0| && pos < r.value.1
    ensures pos >= |draws| ==> r.None?
  {
    if pos >= |draws| then None else PickVars(draws, pos + 1, n, k, [RInt(draws[pos], n)])
  }

  /** `m` more clauses after those in `acc`. */
  function GenClauses(draws: seq<nat>, pos: nat, n: int, k: int, m: nat, acc: seq<Clause>): (r: Option<(seq<Clause>, nat)>)
    requires 1 <= n && 1 <= k
    ensures r.Some? ==> |r.value.0| == |acc| + m && pos <= r.value.1
    ensures m == 0 ==> r == Some((acc, pos))
    decreases m
  {
    if m == 0 then Some((acc, pos))
    else
      match GenClause(draws, pos, n, k)
      case None => None
      case Some((c, p)) => GenClauses(draws, p, n, k, m - 1, acc + [c])
  }

  /** The number of times `for (m = 0; m < M; m++)` runs. */
  function Count(m: int): nat {
    if m > 0 then m else 0
  }

  /** What `random_SAT(N, K, M)` returns for the given draws. */
  function RandomSatSpec(n: int, k: int, m: int, draws: seq<nat>): (r: Option<string>)
    requires 1 <= n && 1 <= k
    ensures r.Some? ==> |Header(n, m)| <= |r.value| && r.value[..|Header(n, m)|] == Header(n, m)
    ensures m <= 0 ==> r == Some(Header(n, m))
  {
    LinesNil();
    assert Text(n, m, []) == Header(n, m);
    match GenClauses(draws, 0, n, k, Count(m), [])
    case None => None
    case Some((cs, _)) => Some(Text(n, m, cs))
  }

  /** The rejection loop only ever extends what it was given, by fresh
      variables in range, and stops at exactly `k` of them. */
  lemma {:induction false} PickVarsResult(draws: seq<nat>, pos: nat, n: int, k: int, chosen: seq<int>)
    requires 1 <= n && InRange(chosen, n) && Distinct(chosen) && |chosen| <= k
    ensures match PickVars(draws, pos, n, k, chosen)
      case None => true
      case Some((vars, p)) =>
        && |vars| == k && InRange(vars, n) && Distinct(vars)
        && vars[..|chosen|] == chosen && pos <= p
    decreases |draws| - pos
  {
    if |chosen| < k && pos < |draws| {
      var v := RInt(draws[pos], n);
      if v in chosen {
        PickVarsResult(draws, pos + 1, n, k, chosen);
      } else {
        PickVarsResult(draws, pos + 1, n, k, chosen + [v]);
        match PickVars(draws, pos + 1, n, k, chosen + [v])
        case None =>
        case Some((vars, p)) =>
          assert vars[..|chosen|] == (chosen + [v])[..|chosen|];
      }
    }
  }

  /** Every clause the generator produces satisfies the clause invariant. */
  lemma GenClauseWellFormed(draws: seq<nat>, pos: nat, n: int, k: int)
    requires 1 <= n && 1 <= k
    ensures match GenClause(draws, pos, n, k)
      case None => true
      case Some((c, p)) => WellFormed(c, n, k) && pos < p
  {
    if pos < |draws| {
      PickVarsResult(draws, pos + 1, n, k, [RInt(draws[pos], n)]);
    }
  }

  lemma {:induction false} GenClausesWellFormed(draws: seq<nat>, pos: nat, n: int, k: int, m: nat, acc: seq<Clause>)
    requires 1 <= n && 1 <= k
    requires forall j :: 0 <= j < |acc| ==> WellFormed(acc[j], n, k)
    ensures match GenClauses(draws, pos, n, k, m, acc)
      case None => true
      case Some((cs, p)) =>
        && |cs| == |acc| + m && cs[..|acc|] == acc
        && forall j :: 0 <= j < |cs| ==> WellFormed(cs[j], n, k)
    decreases m
  {
    if m > 0 {
      GenClauseWellFormed(draws, pos, n, k);
      match GenClause(draws, pos, n, k)
      case None =>
      case Some((c, p)) =>
        GenClausesWellFormed(draws, p, n, k, m - 1, acc + [c]);
        match GenClauses(draws, p, n, k, m - 1, acc + [c])
        case None =>
        case Some((cs, p')) =>
          assert cs[..|acc|] == (acc + [c])[..|acc|];
    }
  }

  /** What `random_SAT` returns is a DIMACS text that reads back as the
      header `p cnf N M` followed by exactly as many clauses as the loop
      over M runs, each of K literals over distinct variables in [1, N];
      and the text is exactly the layout of those clauses. */
  lemma RandomSatOutput(n: int, k: int, m: int, draws: seq<nat>)
    requires 1 <= n && 1 <= k
    requires RandomSatSpec(n, k, m, draws).Some?
    ensures var s := RandomSatSpec(n, k, m, draws).value;
      && Decode(s).Some?
      && Decode(s).value.0 == n && Decode(s).value.1 == m
      && |Decode(s).value.2| == Count(m)
      && (forall j :: 0 <= j < Count(m) ==> WellFormed(Decode(s).value.2[j], n, k))
      && s == Text(n, m, Decode(s).value.2)
  {
    GenClausesWellFormed(draws, 0, n, k, Count(m), []);
    var cs := GenClauses(draws, 0, n, k, Count(m), []).value.0;
    forall j | 0 <= j < |cs| ensures NonZero(cs[j]) {
      assert WellFormed(cs[j], n, k);
    }
    DecodeText(n, m, cs);
  }

  /** Distinct values in [1, n] number at most n. */
  lemma DistinctBound(s: seq<int>, n: int)
    requires 1 <= n && InRange(s, n) && Distinct(s)
    ensures |s| <= n
  {
    var elems := set x | x in s;
    DistinctCard(s);
    var r := Range(n);
    assert elems <= r;
    SubsetCard(elems, r);
  }

  /** The integers 1 to n. */
  function Range(n: nat): (r: set<int>)
    ensures |r| == n
    ensures forall x :: x in r <==> 1 <= x <= n
  {
    if n == 0 then {} else Range(n - 1) + {n}
  }

  lemma {:induction false} DistinctCard(s: seq<int>)
    requires Distinct(s)
    ensures |set x | x in s| == |s|
    decreases |s|
  {
    if s != [] {
      var t := s[1..];
      DistinctCard(t);
      assert s == [s[0]] + t;
      assert (set x | x in s) == {s[0]} + (set x | x in t);
      assert s[0] !in t;
    }
  }

  lemma {:induction false} SubsetCard(a: set<int>, b: set<int>)
    requires a <= b
    ensures |a| <= |b|
  {
    assert b == a + (b - a);
  }

  /** With fewer than K variables (K > N) the rejection loop can accept at
      most N of them and never ends. */
  lemma {:induction false} PickVarsNeverFills(draws: seq<nat>, pos: nat, n: int, k: int, chosen: seq<int>)
    requires 1 <= n < k && InRange(chosen, n) && Distinct(chosen)
    ensures PickVars(draws, pos, n, k, chosen) == None
    decreases |draws| - pos
  {
    DistinctBound(chosen, n);
    if pos < |draws| {
      var v := RInt(draws[pos], n);
      if v in chosen {
        PickVarsNeverFills(draws, pos + 1, n, k, chosen);
      } else {
        PickVarsNeverFills(draws, pos + 1, n, k, chosen + [v]);
      }
    }
  }

  /** `random_SAT` with K > N does not return, however many draws it gets
      (as soon as there is a clause to make). */
  lemma TooManyLiterals(n: int, k: int, m: int, draws: seq<nat>)
    requires 1 <= n < k && 1 <= m
    ensures RandomSatSpec(n, k, m, draws) == None
  {
    if 0 < |draws| {
      PickVarsNeverFills(draws, 1, n, k, [RInt(draws[0], n)]);
    }
  }

  /** With 3 variables and draws 0, 0, 1 the first variable is 1, the
      second draw repeats it and is rejected, the third gives 2; the coin
      flips 1, 0 leave 1 positive and negate 2. */
  lemma Example()
    ensures RandomSatSpec(3, 2, 1, [0, 0, 1, 1, 0]) == Some("p cnf 3 1\n1 -2 0")
  {
    ExampleClauses();
    ExampleText();
  }

  lemma ExampleClauses()
    ensures GenClauses([0, 0, 1, 1, 0], 0, 3, 2, 1, []) == Some(([[1, -2]], 5))
  {
    var draws: seq<nat> := [0, 0, 1, 1, 0];
    assert PickVars(draws, 3, 3, 2, [1, 2]) == Some(([1, 2], 3));
    assert RInt(draws[2], 3) == 2 && 2 !in [1];
    assert [1] + [2] == [1, 2];
    assert PickVars(draws, 2, 3, 2, [1]) == Some(([1, 2], 3));
    assert RInt(draws[1], 3) == 1 && 1 in [1];
    assert PickVars(draws, 1, 3, 2, [1]) == Some(([1, 2], 3));
    assert Sign(1, RBool(draws[3])) == 1 && Sign(2, RBool(draws[4])) == -2;
    assert PickSigns(draws, 3, [1, 2]).value.0 == [1, -2];
    assert GenClause(draws, 0, 3, 2) == Some(([1, -2], 5));
    assert GenClauses(draws, 5, 3, 2, 0, [[1, -2]]) == Some(([[1, -2]], 5));
    assert [] + [[1, -2]] == [[1, -2]];
  }

  lemma ExampleText()
    ensures Text(3, 1, [[1, -2]]) == "p cnf 3 1\n1 -2 0"
  {
    ExampleLits();
    assert LinePieces([]) == [];
    LinesSnoc([], [1, -2]);
    assert [] + [[1, -2]] == [[1, -2]];
    var line := ClauseLine([1, -2]);
    assert line == "\n1 -2 0";
    assert Header(3, 1) == "p cnf 3 1";
  }

  lemma ExampleLits()
    ensures LitsText([1, -2]) == "1 -2 "
  {
    assert LitPieces([]) == [];
    LitsTextSnoc([], 1);
    assert [] + [1] == [1];
    assert LitsText([1]) == "1 ";
    LitsTextSnoc([1], -2);
    assert [1] + [-2] == [1, -2];
    assert IntToString(-2) == "-2";
  }

  /** `std::find` over the whole vector: the first index holding `v`, or
      the vector's length (`end()`) when there is none. */
  method Find(a: array<int>, v: int) returns (at: nat)
    ensures at <= a.Length
    ensures at < a.Length ==> a[at] == v
    ensures forall i :: 0 <= i < at ==> a[i] != v
  {
    at := 0;
    while at < a.Length && a[at] != v
      invariant at <= a.Length
      invariant forall i :: 0 <= i < at ==> a[i] != v
    {
      at := at + 1;
    }
  }

  /** Slots not yet filled hold 0 and every draw is at least 1, so
      searching the whole vector finds exactly what searching the filled
      prefix would. */
  lemma FindInPrefix(s: seq<int>, j: nat, v: int)
    requires j <= |s| && 1 <= v
    requires forall i :: j <= i < |s| ==> s[i] == 0
    ensures (exists i :: 0 <= i < |s| && s[i] == v) <==> v in s[..j]
  {
    if v in s[..j] {
      var i :| 0 <= i < j && s[..j][i] == v;
      assert s[i] == v;
    }
  }

  /** Appending one literal's text, as the source writes it, extends the clause line. */
  lemma AppendLiteral(lits: Clause, v: int, b: int)
    requires 1 <= v
    ensures "\n" + LitsText(lits) + ((if b != 0 then "" else "-") + IntToString(v) + " ")
         == "\n" + LitsText(lits + [Sign(v, b)])
  {
    var prefix := if b != 0 then "" else "-";
    var text := LitsText(lits);
    var digits := IntToString(v);
    assert "\n" + text + (prefix + digits + " ") == "\n" + (text + (prefix + digits) + " ");
    SignText(v, b);
    LitsTextSnoc(lits, Sign(v, b));
  }

  lemma TextSnoc(n: int, m: int, cs: seq<Clause>, c: Clause)
    ensures Text(n, m, cs) + ClauseLine(c) == Text(n, m, cs + [c])
  {
    LinesSnoc(cs, c);
  }

  /** analysis.cpp:105-117, in `random_SAT`: fill a zeroed vector of K slots, the
      first with `rint(N)`, the others by drawing until the draw is not
      found anywhere in the vector. */
  method ChooseVars(n: int, k: int, draws: seq<nat>, pos: nat) returns (clauseVars: array<int>, ok: bool, next: nat)
    requires 1 <= n && 1 <= k
    ensures fresh(clauseVars) && clauseVars.Length == k
    ensures ok <==> ChooseSpec(draws, pos, n, k).Some?
    ensures ok ==> ChooseSpec(draws, pos, n, k) == Some((clauseVars[..], next))
  {
    clauseVars := new int[k](_ => 0);
    next := pos;
    if next >= |draws| {
      return clauseVars, false, next;
    }
    clauseVars[0] := RInt(draws[next], n);
    next := next + 1;
    ghost var first := clauseVars[0];
    assert clauseVars[..1] == [first];

    var j := 1;
    while j < k
      invariant 1 <= j <= k
      invariant pos < next
      invariant forall i :: j <= i < k ==> clauseVars[i] == 0
      invariant PickVars(draws, next, n, k, clauseVars[..j]) == PickVars(draws, pos + 1, n, k, [first])
      decreases |draws| - next
    {
      if next >= |draws| {
        return clauseVars, false, next;
      }
      var newVar := RInt(draws[next], n);
      next := next + 1;
      var at := Find(clauseVars, newVar);
      FindInPrefix(clauseVars[..], j, newVar);
      if at == clauseVars.Length {
        ghost var accepted := clauseVars[..j];
        clauseVars[j] := newVar;
        assert clauseVars[..j + 1] == accepted + [newVar];
        j := j + 1;
      } else {
        assert clauseVars[..][at] == newVar;
      }
    }
    assert clauseVars[..j] == clauseVars[..];
    ok := true;
  }

  /** analysis.cpp:119-124, in `random_SAT`: a newline, then per slot
      `(rbool() ? "" : "-") + to_string(var) + " "`, then `0`. */
  method ClauseText(clauseVars: array<int>, draws: seq<nat>, pos: nat) returns (clause: string, ok: bool, next: nat)
    requires 1 <= clauseVars.Length
    requires forall i :: 0 <= i < clauseVars.Length ==> 1 <= clauseVars[i]
    ensures ok <==> PickSigns(draws, pos, clauseVars[..]).Some?
    ensures ok ==> var (lits, p) := PickSigns(draws, pos, clauseVars[..]).value; next == p && clause == ClauseLine(lits)
  {
    clause := "\n";
    ghost var vars := clauseVars[..];
    ghost var lits: Clause := [];
    next := pos;
    var i := 0;
    while i < clauseVars.Length
      invariant 0 <= i <= clauseVars.Length
      invariant next == pos + i
      invariant |lits| == i
      invariant i > 0 ==> pos + i <= |draws|
      invariant forall t :: 0 <= t < i ==> lits[t] == Sign(vars[t], RBool(draws[pos + t]))
      invariant clause == "\n" + LitsText(lits)
    {
      if next >= |draws| {
        return clause, false, next;
      }
      var b := RBool(draws[next]);
      next := next + 1;
      ghost var lit := Sign(clauseVars[i], b);
      var piece := (if b != 0 then "" else "-") + IntToString(clauseVars[i]) + " ";
      assert clause + piece == "\n" + LitsText(lits + [lit]) by {
        AppendLiteral(lits, clauseVars[i], b);
      }
      clause := clause + piece;
      ghost var lits' := lits + [lit];
      forall t | 0 <= t < i + 1 ensures lits'[t] == Sign(vars[t], RBool(draws[pos + t])) {
        if t < i {
          assert lits'[t] == lits[t];
        }
      }
      lits := lits';
      i := i + 1;
    }
    clause := clause + "0";
    assert lits == PickSigns(draws, pos, vars).value.0 by {
      assert |lits| == |vars|;
    }
    ok := true;
  }

  /** One pass of the loop over M (analysis.cpp:105-126, in `random_SAT`): choose
      the clause's variables, then write its line. */
  method MakeClause(n: int, k: int, draws: seq<nat>, pos: nat) returns (clause: string, ok: bool, next: nat)
    requires 1 <= n && 1 <= k
    ensures ok <==> GenClause(draws, pos, n, k).Some?
    ensures ok ==> (next == GenClause(draws, pos, n, k).value.1
                    && clause == ClauseLine(GenClause(draws, pos, n, k).value.0))
  {
    var clauseVars, chosen, afterVars := ChooseVars(n, k, draws, pos);
    if !chosen {
      return "", false, pos;
    }
    PickVarsResult(draws, pos + 1, n, k, [RInt(draws[pos], n)]);
    clause, ok, next := ClauseText(clauseVars, draws, afterVars);
  }

  // LoopStep, LoopStop, LoopStart and LoopEnd state the bookkeeping of
  // `RandomSat`'s loop on their own, so that the method's proof sees only
  // their contracts and not the definitions behind them.

  /** The loop's bookkeeping after one more clause. */
  lemma LoopStep(n: int, k: int, m: int, draws: seq<nat>, pos: nat, rem: nat, done: seq<Clause>, dimacs: string)
    requires 1 <= n && 1 <= k && 0 < rem
    requires GenClause(draws, pos, n, k).Some?
    requires dimacs == Text(n, m, done)
    ensures var (c, next) := GenClause(draws, pos, n, k).value;
      && GenClauses(draws, pos, n, k, rem, done) == GenClauses(draws, next, n, k, rem - 1, done + [c])
      && dimacs + ClauseLine(c) == Text(n, m, done + [c])
  {
    var (c, next) := GenClause(draws, pos, n, k).value;
    assert GenClauses(draws, pos, n, k, rem, done) == GenClauses(draws, next, n, k, rem - 1, done + [c]);
    TextSnoc(n, m, done, c);
  }

  /** A clause that cannot be made ends the whole generation. */
  lemma LoopStop(n: int, k: int, draws: seq<nat>, pos: nat, rem: nat, done: seq<Clause>)
    requires 1 <= n && 1 <= k && 0 < rem
    requires GenClause(draws, pos, n, k).None?
    ensures GenClauses(draws, pos, n, k, rem, done).None?
  {
  }

  /** Before the loop: the header alone, and every clause still to make. */
  lemma LoopStart(n: int, m: int)
    ensures "p cnf " + IntToString(n) + " " + IntToString(m) == Text(n, m, [])
  {
    assert LinePieces([]) == [];
  }

  /** After the loop: the text of every clause made, as the specification says. */
  lemma LoopEnd(n: int, k: int, m: int, draws: seq<nat>, pos: nat, done: seq<Clause>)
    requires 1 <= n && 1 <= k
    requires GenClauses(draws, pos, n, k, 0, done) == GenClauses(draws, 0, n, k, Count(m), [])
    ensures RandomSatSpec(n, k, m, draws) == Some(Text(n, m, done))
  {
  }

  /** `random_SAT(N, K, M)`: the header, then M clause lines. */
  method RandomSat(n: int, k: int, m: int, draws: seq<nat>) returns (r: Option<string>)
    requires 1 <= n && 1 <= k
    ensures r == RandomSatSpec(n, k, m, draws)
  {
    var dimacs := "p cnf " + IntToString(n) + " " + IntToString(m);
    LoopStart(n, m);
    var pos: nat := 0;
    ghost var done: seq<Clause> := [];
    ghost var rem: nat := Count(m);
    ghost var result := GenClauses(draws, 0, n, k, rem, []);
    var c := 0;
    while c < m
      invariant c + rem == Count(m)
      invariant dimacs == Text(n, m, done)
      invariant GenClauses(draws, pos, n, k, rem, done) == result
      decreases m - c
    {
      var clause, ok, next := MakeClause(n, k, draws, pos);
      if !ok {
        LoopStop(n, k, draws, pos, rem, done);
        return None;
      }
      LoopStep(n, k, m, draws, pos, rem, done, dimacs);
      done := done + [GenClause(draws, pos, n, k).value.0];
      dimacs := dimacs + clause;
      pos := next;
      rem := rem - 1;
      c := c + 1;
    }
    LoopEnd(n, k, m, draws, pos, done);
    r := Some(dimacs);
  }
}
