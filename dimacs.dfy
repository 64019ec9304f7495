/** The DIMACS CNF text that `random_SAT` builds: a header line
    `p cnf <variables> <clauses>`, then one line per clause holding its
    signed literals, each followed by one space, and the terminator `0`.
    Every clause line begins with the newline that ends the line before it,
    so the text has no trailing newline. `Decode` reads such a text back. */
module Dimacs {
  import opened Optional
  import opened Format

  /** A clause as DIMACS writes it: signed literals, a negative one for a negated variable. */
  type Clause = seq<int>

  function Header(n: int, m: int): (h: string)
    ensures 9 <= |h| && h[..6] == "p cnf "
  {
    "p cnf " + IntToString(n) + " " + IntToString(m)
  }

  /** Each literal's text followed by one space. */
  function LitPieces(c: Clause): (ps: seq<string>)
    ensures |ps| == |c|
  {
    seq(|c|, i requires 0 <= i < |c| => IntToString(c[i]) + " ")
  }

  function LitsText(c: Clause): string {
    Concat(LitPieces(c))
  }

  function ClauseLine(c: Clause): (l: string)
    ensures 2 <= |l| && l[0] == '\n' && l[|l| - 1] == '0'
  {
    "\n" + LitsText(c) + "0"
  }

  function LinePieces(cs: seq<Clause>): (ps: seq<string>)
    ensures |ps| == |cs|
  {
    seq(|cs|, i requires 0 <= i < |cs| => ClauseLine(cs[i]))
  }

  function Lines(cs: seq<Clause>): string {
    Concat(LinePieces(cs))
  }

  /** The whole instance text for `n` variables and `m` declared clauses. */
  function Text(n: int, m: int, cs: seq<Clause>): (t: string)
    ensures |Header(n, m)| <= |t| && t[..|Header(n, m)|] == Header(n, m)
  {
    Header(n, m) + Lines(cs)
  }

  lemma LinesNil()
    ensures Lines([]) == []
  {
    assert LinePieces([]) == [];
  }

  lemma LitsTextSnoc(c: Clause, x: int)
    ensures LitsText(c + [x]) == LitsText(c) + IntToString(x) + " "
  {
    var piece := IntToString(x) + " ";
    assert LitPieces(c + [x]) == LitPieces(c) + [piece];
    ConcatSnoc(LitPieces(c), piece);
    var t := LitsText(c);
    assert t + piece == t + IntToString(x) + " ";
  }

  lemma LitsTextCons(c: Clause)
    requires c != []
    ensures LitsText(c) == IntToString(c[0]) + " " + LitsText(c[1..])
  {
    ConcatHead(LitPieces(c));
    LitPiecesTail(c);
  }

  lemma LitPiecesTail(c: Clause)
    requires c != []
    ensures LitPieces(c)[1..] == LitPieces(c[1..])
  {
    var ps, qs := LitPieces(c)[1..], LitPieces(c[1..]);
    assert |ps| == |qs|;
    forall i | 0 <= i < |ps| ensures ps[i] == qs[i] {
      assert c[1..][i] == c[i + 1];
    }
  }

  lemma LinesSnoc(cs: seq<Clause>, c: Clause)
    ensures Lines(cs + [c]) == Lines(cs) + ClauseLine(c)
  {
    assert LinePieces(cs + [c]) == LinePieces(cs) + [ClauseLine(c)];
    ConcatSnoc(LinePieces(cs), ClauseLine(c));
  }

  lemma LinesCons(cs: seq<Clause>)
    requires cs != []
    ensures Lines(cs) == ClauseLine(cs[0]) + Lines(cs[1..])
  {
    ConcatHead(LinePieces(cs));
    LinePiecesTail(cs);
  }

  lemma LinePiecesTail(cs: seq<Clause>)
    requires cs != []
    ensures LinePieces(cs)[1..] == LinePieces(cs[1..])
  {
    var ps, qs := LinePieces(cs)[1..], LinePieces(cs[1..]);
    assert |ps| == |qs|;
    forall i | 0 <= i < |ps| ensures ps[i] == qs[i] {
      assert cs[1..][i] == cs[i + 1];
    }
  }

  /** Reads literals, each followed by one space, up to the terminating `0`;
      returns them and the text after the `0`. */
  function DecodeLits(s: string): (r: Option<(Clause, string)>)
    ensures r.Some? ==> |r.value.1| < |s|
    decreases |s|
  {
    match ReadInt(s)
    case None => None
    case Some((x, rest)) =>
      if x == 0 then Some(([], rest))
      else if |rest| == 0 || rest[0] != ' ' then None
      else
        match DecodeLits(rest[1..])
        case None => None
        case Some((xs, after)) => Some(([x] + xs, after))
  }

  /** Reads clause lines, each introduced by a newline, to the end of the text. */
  function DecodeLines(s: string): Option<seq<Clause>>
    decreases |s|
  {
    if s == [] then Some([])
    else if s[0] != '\n' then None
    else
      match DecodeLits(s[1..])
      case None => None
      case Some((c, rest)) =>
        match DecodeLines(rest)
        case None => None
        case Some(cs) => Some([c] + cs)
  }

  /** Parses a whole instance text into (variables, declared clauses, clauses). */
  function Decode(s: string): Option<(int, int, seq<Clause>)> {
    if |s| < 6 || s[..6] != "p cnf " then None else DecodeCounts(s[6..])
  }

  function DecodeCounts(t: string): Option<(int, int, seq<Clause>)> {
    match ReadInt(t)
    case None => None
    case Some((n, r1)) =>
      if |r1| == 0 || r1[0] != ' ' then None else DecodeClauseCount(n, r1[1..])
  }

  function DecodeClauseCount(n: int, t: string): Option<(int, int, seq<Clause>)> {
    match ReadInt(t)
    case None => None
    case Some((m, body)) =>
      match DecodeLines(body)
      case None => None
      case Some(cs) => Some((n, m, cs))
  }

  /** No literal is 0, so none can be taken for the terminator. */
  predicate NonZero(c: Clause) {
    forall i :: 0 <= i < |c| ==> c[i] != 0
  }

  lemma {:induction false} DecodeLitsOfText(c: Clause, rest: string)
    requires NonZero(c)
    requires rest == [] || rest[0] == '\n'
    ensures DecodeLits(LitsText(c) + "0" + rest) == Some((c, rest))
    decreases |c|
  {
    if c == [] {
      DecodeLitsEnd(rest);
    } else {
      DecodeLitsOfText(c[1..], rest);
      DecodeLitsCons(c, rest);
    }
  }

  /** The terminator alone reads as the empty clause. */
  lemma DecodeLitsEnd(rest: string)
    requires rest == [] || rest[0] == '\n'
    ensures DecodeLits(LitsText([]) + "0" + rest) == Some(([], rest))
  {
    assert LitPieces([]) == [];
    assert LitsText([]) + "0" + rest == IntToString(0) + rest;
    ReadIntOfIntToString(0, rest);
  }

  lemma DecodeLitsCons(c: Clause, rest: string)
    requires c != [] && c[0] != 0
    requires DecodeLits(LitsText(c[1..]) + "0" + rest) == Some((c[1..], rest))
    ensures DecodeLits(LitsText(c) + "0" + rest) == Some((c, rest))
  {
    var tail := LitsText(c[1..]) + "0" + rest;
    LitsThen(c, rest);
    DecodeLitsStep(c[0], tail);
    assert [c[0]] + c[1..] == c;
  }

  /** A clause's text and what follows it, regrouped as the decoder reads it. */
  lemma LitsThen(c: Clause, rest: string)
    requires c != []
    ensures LitsText(c) + "0" + rest == IntToString(c[0]) + (" " + (LitsText(c[1..]) + "0" + rest))
  {
    var x, l := IntToString(c[0]), LitsText(c[1..]);
    LitsTextCons(c);
    Regroup(x, " ", l, "0", rest);
  }

  /** A non-zero literal and its space are read, then the rest of the clause. */
  lemma DecodeLitsStep(x: int, tail: string)
    requires x != 0
    ensures DecodeLits(IntToString(x) + (" " + tail))
         == match DecodeLits(tail)
            case None => None
            case Some((xs, after)) => Some(([x] + xs, after))
  {
    ReadIntOfIntToString(x, " " + tail);
    assert (" " + tail)[1..] == tail;
  }

  lemma {:induction false} DecodeLinesOfText(cs: seq<Clause>)
    requires forall j :: 0 <= j < |cs| ==> NonZero(cs[j])
    ensures DecodeLines(Lines(cs)) == Some(cs)
    decreases |cs|
  {
    if cs != [] {
      DecodeLinesOfText(cs[1..]);
      LinesStart(cs[1..]);
      DecodeLitsOfText(cs[0], Lines(cs[1..]));
      DecodeLinesCons(cs);
    }
  }

  lemma DecodeLinesCons(cs: seq<Clause>)
    requires cs != []
    requires DecodeLits(LitsText(cs[0]) + "0" + Lines(cs[1..])) == Some((cs[0], Lines(cs[1..])))
    requires DecodeLines(Lines(cs[1..])) == Some(cs[1..])
    ensures DecodeLines(Lines(cs)) == Some(cs)
  {
    var lits, rest := LitsText(cs[0]), Lines(cs[1..]);
    var body := lits + "0" + rest;
    assert Lines(cs) == "\n" + body by {
      LinesCons(cs);
      Regroup4("\n", lits, "0", rest);
    }
    DecodeLinesStep(body);
    assert [cs[0]] + cs[1..] == cs;
  }

  /** A newline introduces one clause, then the clauses after it. */
  lemma DecodeLinesStep(body: string)
    ensures DecodeLines("\n" + body)
         == match DecodeLits(body)
            case None => None
            case Some((c, rest)) =>
              match DecodeLines(rest)
              case None => None
              case Some(cs) => Some([c] + cs)
  {
    assert ("\n" + body)[1..] == body;
  }

  lemma LinesStart(cs: seq<Clause>)
    ensures Lines(cs) == [] || Lines(cs)[0] == '\n'
  {
    if cs != [] {
      LinesCons(cs);
    }
  }

  lemma DecodeClauseCountOf(n: int, m: int, body: string, cs: seq<Clause>)
    requires body == [] || body[0] == '\n'
    requires DecodeLines(body) == Some(cs)
    ensures DecodeClauseCount(n, IntToString(m) + body) == Some((n, m, cs))
  {
    ReadIntOfIntToString(m, body);
  }

  lemma DecodeCountsOf(n: int, r1: string)
    requires |r1| > 0 && r1[0] == ' '
    ensures DecodeCounts(IntToString(n) + r1) == DecodeClauseCount(n, r1[1..])
  {
    ReadIntOfIntToString(n, r1);
  }

  /** The header is read back; what follows it is left to `DecodeLines`. */
  lemma DecodeHeader(n: int, m: int, body: string, cs: seq<Clause>)
    requires body == [] || body[0] == '\n'
    requires DecodeLines(body) == Some(cs)
    ensures Decode(Header(n, m) + body) == Some((n, m, cs))
  {
    var t := IntToString(m) + body;
    var r1 := " " + t;
    HeaderThen(n, m, body);
    DecodeTag(IntToString(n) + r1);
    DecodeCountsOf(n, r1);
    assert r1[1..] == t;
    DecodeClauseCountOf(n, m, body, cs);
  }

  /** The header followed by more text, regrouped as the decoder reads it.
      Stated on its own so that `DecodeHeader` sees only this equation. */
  lemma HeaderThen(n: int, m: int, body: string)
    ensures Header(n, m) + body == "p cnf " + (IntToString(n) + (" " + (IntToString(m) + body)))
  {
  }

  /** The tag is recognised and the counts after it are read. */
  lemma DecodeTag(rest: string)
    ensures Decode("p cnf " + rest) == DecodeCounts(rest)
  {
    var s := "p cnf " + rest;
    assert s[..6] == "p cnf " && s[6..] == rest;
  }

  /** The instance text is unambiguous: it parses back to exactly the
      header values and clauses it was written from. */
  lemma DecodeText(n: int, m: int, cs: seq<Clause>)
    requires forall j :: 0 <= j < |cs| ==> NonZero(cs[j])
    ensures Decode(Text(n, m, cs)) == Some((n, m, cs))
  {
    LinesStart(cs);
    DecodeLinesOfText(cs);
    DecodeHeader(n, m, Lines(cs), cs);
  }
}
