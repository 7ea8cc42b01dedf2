/**
 The two quote-aware scanners of a table definition: one finds the parenthesis that matches an opening one, the other
 cuts what lies between them at its top-level commas. They must agree on what is quoted.
 */
module Parens {
  import opened SqlSplit

  /** Parenthesis depth, and the quote being read, if any. */
  datatype State = State(depth: int, quote: Quote)
  datatype Quote = None | In(c: char)

  const START := State(0, None)

  /** How many characters one step takes: an escape or a doubled quote inside a quoted section takes two. */
  function Width(t: string, i: nat, q: Quote): (w: nat)
    requires i < |t|
    ensures 1 <= w <= 2
  {
    match q
    case None => 1
    case In(c) =>
      if t[i] == '\\' then 2
      else if t[i] == c && i + 1 < |t| && t[i + 1] == c && c != '`' then 2
      else 1
  }

  function After(t: string, i: nat, s: State): State
    requires i < |t|
  {
    match s.quote
    case In(c) => if t[i] == c && Width(t, i, s.quote) == 1 then State(s.depth, None) else s
    case None =>
      if IsQuote(t[i]) then State(s.depth, In(t[i]))
      else if t[i] == '(' then State(s.depth + 1, None)
      else if t[i] == ')' then State(s.depth - 1, None)
      else s
  }

  /** The state at the end of `t`; an escape may run past the end. */
  function Final(t: string, i: nat, s: State): State
    decreases |t| - i
  {
    if i >= |t| then s else Final(t, i + Width(t, i, s.quote), After(t, i, s))
  }

  /** The depth never falls below zero while reading `t` from `i`. */
  predicate NeverBelow(t: string, i: nat, s: State)
    decreases |t| - i
  {
    s.depth >= 0 && (i >= |t| || NeverBelow(t, i + Width(t, i, s.quote), After(t, i, s)))
  }

  predicate Balanced(t: string)
  {
    NeverBelow(t, 0, START) && Final(t, 0, START) == START
  }

  /** Where the scan from `i` first closes the outermost parenthesis, or -1. */
  function Match(t: string, i: nat, s: State): (r: int)
    ensures r == -1 || (i <= r < |t| && t[r] == ')')
    decreases |t| - i
  {
    if i >= |t| then -1
    else if s.quote == None && t[i] == ')' && s.depth == 1 then i
    else Match(t, i + Width(t, i, s.quote), After(t, i, s))
  }

  method MatchingParen(value: string, open: nat) returns (r: int)
    requires open <= |value|
    ensures r == Match(value, open, START)
  {
    var depth := 0;
    var quote: Quote := None;
    var i := open;
    while i < |value|
      invariant open <= i
      invariant Match(value, i, State(depth, quote)) == Match(value, open, START)
      decreases |value| - i
    {
      var ch := value[i];
      if quote != None {
        if ch == '\\' {
          i := i + 2;
          continue;
        }
        if ch == quote.c {
          if i + 1 < |value| && value[i + 1] == quote.c && quote.c != '`' {
            i := i + 2;
            continue;
          }
          quote := None;
        }
        i := i + 1;
        continue;
      }
      if ch == '\'' || ch == '"' || ch == '`' {
        quote := In(ch);
        i := i + 1;
        continue;
      }
      if ch == '(' {
        depth := depth + 1;
      } else if ch == ')' {
        depth := depth - 1;
        if depth == 0 {
          return i;
        }
      }
      i := i + 1;
    }
    return -1;
  }

  /** The first parenthesis that opens outside quotes, or -1. */
  function FirstOpen(t: string, i: nat, q: Quote): (r: int)
    ensures r == -1 || (i <= r < |t| && t[r] == '(')
    decreases |t| - i
  {
    if i >= |t| then -1
    else if q == None && t[i] == '(' then i
    else FirstOpen(t, i + Width(t, i, q), After(t, i, State(0, q)).quote)
  }

  /**
   Unlike the other scanners this one takes a doubled quote for a section that closes and opens again; it finds the same
   place.
   */
  method FindOpeningParen(value: string) returns (r: int)
    ensures r == FirstOpen(value, 0, None)
  {
    var quote: Quote := None;
    var i := 0;
    while i < |value|
      invariant FirstOpen(value, i, quote) == FirstOpen(value, 0, None)
      invariant quote.In? ==> IsQuote(quote.c)
      decreases |value| - i
    {
      var ch := value[i];
      if quote != None {
        if ch == '\\' {
          i := i + 2;
          continue;
        }
        if ch == quote.c {
          quote := None;
        }
        i := i + 1;
        continue;
      }
      if ch == '\'' || ch == '"' || ch == '`' {
        quote := In(ch);
        i := i + 1;
        continue;
      }
      if ch == '(' {
        return i;
      }
      i := i + 1;
    }
    return -1;
  }

  // ---------- Cutting at top-level commas ----------

  predicate Cuts(t: string, i: nat, s: State)
    requires i < |t|
  {
    s == START && t[i] == ','
  }

  /** The pieces between top-level commas, as they stand: the scan is at `i`, the current piece began at `start`. */
  function Pieces(t: string, start: nat, i: nat, s: State): (r: seq<string>)
    requires start <= i && start <= |t|
    ensures r != []
    decreases |t| - i
  {
    if i >= |t| then [t[start..]]
    else if Cuts(t, i, s) then [t[start..i]] + Pieces(t, i + 1, i + 1, s)
    else Pieces(t, start, i + Width(t, i, s.quote), After(t, i, s))
  }

  function TrimAll(s: seq<string>): seq<string>
  {
    if s == [] then [] else [Trim(s[0])] + TrimAll(s[1..])
  }

  /** What is returned: the pieces trimmed, without the last when it is blank. */
  function TrimPieces(pieces: seq<string>): seq<string>
    requires pieces != []
  {
    var last := Trim(pieces[|pieces| - 1]);
    TrimAll(pieces[..|pieces| - 1]) + if last != "" then [last] else []
  }

  function JoinCommas(s: seq<string>): string
    requires s != []
  {
    if |s| == 1 then s[0] else s[0] + "," + JoinCommas(s[1..])
  }

  lemma {:induction false} TrimAllSnoc(s: seq<string>, x: string)
    ensures TrimAll(s + [x]) == TrimAll(s) + [Trim(x)]
  {
    if s == [] {
      assert [x][1..] == [];
    } else {
      assert (s + [x])[1..] == s[1..] + [x];
      TrimAllSnoc(s[1..], x);
    }
  }

  lemma Regroup(a: seq<string>, x: string, b: seq<string>)
    ensures a + ([x] + b) == a + [x] + b
  {
  }

  lemma NothingCut()
    ensures TrimAll([]) == [] && forall p: seq<string> :: [] + p == p
  {
  }

  lemma LastPiece(cut: seq<string>, x: string)
    ensures TrimPieces(cut + [x]) == TrimAll(cut) + if Trim(x) != "" then [Trim(x)] else []
  {
  }

  method SplitTopLevel(value: string) returns (parts: seq<string>)
    ensures parts == TrimPieces(Pieces(value, 0, 0, START))
  {
    hide Trim, TrimAll;
    NothingCut();
    parts := [];
    ghost var cut: seq<string> := [];
    var start, depth, i := 0, 0, 0;
    var quote: Quote := None;
    while i < |value|
      invariant start <= i && start <= |value|
      invariant parts == TrimAll(cut)
      invariant cut + Pieces(value, start, i, State(depth, quote)) == Pieces(value, 0, 0, START)
      decreases |value| - i
    {
      var ch := value[i];
      if quote != None {
        if ch == '\\' {
          i := i + 2;
          continue;
        }
        if ch == quote.c {
          if i + 1 < |value| && value[i + 1] == quote.c && quote.c != '`' {
            i := i + 2;
            continue;
          }
          quote := None;
        }
        i := i + 1;
        continue;
      }
      if ch == '\'' || ch == '"' || ch == '`' {
        quote := In(ch);
      } else if ch == '(' {
        depth := depth + 1;
      } else if ch == ')' {
        depth := depth - 1;
      } else if ch == ',' && depth == 0 {
        TrimAllSnoc(cut, value[start..i]);
        Regroup(cut, value[start..i], Pieces(value, i + 1, i + 1, START));
        parts := parts + [Trim(value[start..i])];
        cut := cut + [value[start..i]];
        start := i + 1;
      }
      i := i + 1;
    }
    var tail := Trim(value[start..]);
    LastPiece(cut, value[start..]);
    if tail != "" {
      parts := parts + [tail];
    }
  }

  // ---------- The two scanners agree ----------

  predicate Proper(s: State)
  {
    s.quote.In? ==> IsQuote(s.quote.c)
  }

  /** The positions a scan visits before `end`, each with the state in which it gets there. */
  function Trace(t: string, i: nat, s: State, end: nat): seq<(nat, State)>
    requires end <= |t|
    decreases end - i
  {
    if i >= end then [] else [(i, s)] + Trace(t, i + Width(t, i, s.quote), After(t, i, s), end)
  }

  /** The same trace seen from inside: positions counted from `b`, one parenthesis less deep. */
  function Inside(trace: seq<(nat, State)>, b: int): seq<(int, State)>
  {
    if trace == [] then [] else
      [(trace[0].0 - b, trace[0].1.(depth := trace[0].1.depth - 1))] + Inside(trace[1..], b)
  }

  /** Up to `end`, where a closing parenthesis, a comma or nothing stands, a part of the text steps as the text does. */
  lemma StepInPart(t: string, b: nat, end: nat, j: nat, s: State, d: int)
    requires b + j < end <= |t| && Proper(s) && (end < |t| ==> !IsQuote(t[end]))
    ensures Width(t[b..end], j, s.quote) == Width(t, b + j, s.quote)
    ensures After(t[b..end], j, State(s.depth - d, s.quote)) ==
              State(After(t, b + j, s).depth - d, After(t, b + j, s).quote)
    ensures Proper(After(t, b + j, s))
  {
  }

  /** Reading the body from `j` mirrors reading the whole from `b + j` up to the match at `c`, and ends balanced. */
  ghost predicate Mirrors(v: string, b: nat, j: nat, s: State, c: nat)
    requires b <= c <= |v|
  {
    var body, inner := v[b..c], State(s.depth - 1, s.quote);
    && NeverBelow(body, j, inner) && Final(body, j, inner) == START
    && Trace(body, j, inner, |body|) == Inside(Trace(v, b + j, s, c), b)
  }

  lemma {:induction false} Lockstep(v: string, b: nat, j: nat, s: State, c: nat)
    requires Proper(s) && s.depth >= 1 && b + j <= c && Match(v, b + j, s) == c
    ensures v[c] == ')' && Mirrors(v, b, j, s, c)
    decreases c - j
  {
    hide *;
    var i := b + j;
    if s.quote == None && v[i] == ')' && s.depth == 1 {
      MirrorsAtMatch(v, b, j, s);
    } else {
      MatchStep(v, i, s);
      StepInPart(v, b, c, j, s, 1);
      Lockstep(v, b, j + Width(v, i, s.quote), After(v, i, s), c);
      MirrorsStep(v, b, j, s, c);
    }
  }

  lemma MatchStep(v: string, i: nat, s: State)
    requires i < |v| && s.depth >= 1 && !(s.quote == None && v[i] == ')' && s.depth == 1) && Match(v, i, s) >= 0
    ensures After(v, i, s).depth >= 1 && i + Width(v, i, s.quote) <= Match(v, i, s)
    ensures Match(v, i + Width(v, i, s.quote), After(v, i, s)) == Match(v, i, s)
    ensures !IsQuote(v[Match(v, i, s)])
  {
  }

  lemma MirrorsAtMatch(v: string, b: nat, j: nat, s: State)
    requires b + j < |v| && s.quote == None && v[b + j] == ')' && s.depth == 1
    ensures Match(v, b + j, s) == b + j && Mirrors(v, b, j, s, b + j)
  {
  }

  lemma MirrorsStep(v: string, b: nat, j: nat, s: State, c: nat)
    requires b + j < c <= |v| && s.depth >= 1
    requires Width(v[b..c], j, s.quote) == Width(v, b + j, s.quote)
    requires After(v[b..c], j, State(s.depth - 1, s.quote)) ==
               State(After(v, b + j, s).depth - 1, After(v, b + j, s).quote)
    requires Mirrors(v, b, j + Width(v, b + j, s.quote), After(v, b + j, s), c)
    ensures Mirrors(v, b, j, s, c)
  {
  }

  // ---------- Every piece is balanced ----------

  /** The next top-level comma from `i`, or the end. */
  function CutAt(t: string, i: nat, s: State): (e: nat)
    requires i <= |t|
    ensures i <= e <= |t| && (e < |t| ==> t[e] == ',')
    decreases |t| - i
  {
    if i >= |t| || Cuts(t, i, s) then i
    else
      var k := i + Width(t, i, s.quote);
      if k > |t| then |t| else CutAt(t, k, After(t, i, s))
  }

  /** From `j` on the scan of `p` stays above zero, ends at the start state and meets no top-level comma. */
  ghost predicate WholePiece(p: string, j: nat, s: State)
  {
    NeverBelow(p, j, s) && Final(p, j, s) == START && Pieces(p, 0, j, s) == [p]
  }

  /**
   The piece that began at `b` ends at `e`, and what follows a comma there scans from the start state to the start
   state.
   */
  ghost predicate EndsAt(t: string, b: nat, i: nat, s: State, e: nat)
    requires b <= i <= |t| && i <= e <= |t|
  {
    && (e < |t| ==> NeverBelow(t, e + 1, START) && Final(t, e + 1, START) == START)
    && Pieces(t, b, i, s) == [t[b..e]] + if e < |t| then Pieces(t, e + 1, e + 1, START) else []
  }

  /**
   A scan that ends at the start state comes through the next cut at the start state, never below depth zero on the way.
   */
  lemma {:induction false} PieceTo(t: string, b: nat, j: nat, s: State)
    requires b + j <= |t| && Proper(s) && NeverBelow(t, b + j, s) && Final(t, b + j, s) == START
    ensures var e := CutAt(t, b + j, s); WholePiece(t[b..e], j, s) && EndsAt(t, b, b + j, s, e)
    decreases |t| - j
  {
    hide *;
    var i := b + j;
    if i >= |t| || Cuts(t, i, s) {
      PieceEnds(t, b, j, s);
    } else {
      EscapeStaysQuoted(t, i, s);
      var k, next, e := i + Width(t, i, s.quote), After(t, i, s), CutAt(t, i, s);
      UncutStep(t, b, j, s);
      StepInPart(t, b, e, j, s, 0);
      PieceTo(t, b, k - b, next);
      PartStep(t[b..e], j, s);
      EndsAtStep(t, b, i, s, e);
    }
  }

  lemma PieceEnds(t: string, b: nat, j: nat, s: State)
    requires b + j <= |t| && NeverBelow(t, b + j, s) && Final(t, b + j, s) == START
    requires b + j == |t| || Cuts(t, b + j, s)
    ensures CutAt(t, b + j, s) == b + j && WholePiece(t[b..b + j], j, s) && EndsAt(t, b, b + j, s, b + j)
  {
    var e := b + j;
    assert t[b..e][0..] == t[b..e];
    if e == |t| {
      assert t[b..e] == t[b..];
    }
  }

  lemma PartStep(p: string, j: nat, s: State)
    requires j < |p| && s.depth >= 0 && !Cuts(p, j, s) && WholePiece(p, j + Width(p, j, s.quote), After(p, j, s))
    ensures WholePiece(p, j, s)
  {
  }

  lemma EndsAtStep(t: string, b: nat, i: nat, s: State, e: nat)
    requires b <= i < e <= |t| && !Cuts(t, i, s) && i + Width(t, i, s.quote) <= e
    requires EndsAt(t, b, i + Width(t, i, s.quote), After(t, i, s), e)
    ensures EndsAt(t, b, i, s, e)
  {
  }

  lemma UncutStep(t: string, b: nat, j: nat, s: State)
    requires b + j < |t| && !Cuts(t, b + j, s) && b + j + Width(t, b + j, s.quote) <= |t|
    requires NeverBelow(t, b + j, s) && Proper(s)
    ensures var i := b + j;
            var k, next, e := i + Width(t, i, s.quote), After(t, i, s), CutAt(t, i, s);
            && e == CutAt(t, k, next) && i < k <= e && s.depth >= 0 && NeverBelow(t, k, next) &&
               Final(t, i, s) == Final(t, k, next)
            && !Cuts(t[b..e], j, s) && (e < |t| ==> !IsQuote(t[e]))
  {
  }

  lemma EscapeStaysQuoted(t: string, i: nat, s: State)
    requires i < |t| && Final(t, i, s) == START
    ensures i + Width(t, i, s.quote) <= |t|
  {
  }

  /** Every piece is balanced, holds no top-level comma, and the pieces joined by commas are the text. */
  lemma {:induction false} PiecesAreBalanced(t: string, b: nat)
    requires b <= |t| && NeverBelow(t, b, START) && Final(t, b, START) == START
    ensures forall p :: p in Pieces(t, b, b, START) ==> WholePiece(p, 0, START)
    ensures JoinCommas(Pieces(t, b, b, START)) == t[b..]
    decreases |t| - b
  {
    hide NeverBelow, Final, Pieces, JoinCommas, WholePiece;
    var e := CutAt(t, b, START);
    PieceTo(t, b, 0, START);
    if e < |t| {
      PiecesAreBalanced(t, e + 1);
      JoinStep(t[b..e], Pieces(t, e + 1, e + 1, START));
      assert t[b..] == t[b..e] + "," + t[e + 1..];
    } else {
      JoinOne(t[b..e]);
      assert [t[b..e]] + [] == [t[b..e]];
      assert t[b..e] == t[b..];
    }
  }

  lemma JoinOne(p: string)
    ensures JoinCommas([p]) == p
  {
  }

  lemma JoinStep(p: string, rest: seq<string>)
    requires rest != []
    ensures JoinCommas([p] + rest) == p + "," + JoinCommas(rest)
  {
  }

  /** The body between a parenthesis and its match is balanced and falls into balanced pieces. */
  lemma MatchedBody(v: string, open: nat)
    requires open < |v| && v[open] == '(' && Match(v, open, START) >= 0
    ensures var c := Match(v, open, START);
            var body := v[open + 1..c];
            && open < c && v[c] == ')'
            && Balanced(body)
            && Trace(body, 0, START, |body|) == Inside(Trace(v, open + 1, State(1, None), c), open + 1)
            && (forall p :: p in Pieces(body, 0, 0, START) ==> Balanced(p) && Pieces(p, 0, 0, START) == [p])
            && JoinCommas(Pieces(body, 0, 0, START)) == body
  {
    var c := Match(v, open, START);
    Lockstep(v, open + 1, 0, State(1, None), c);
    PiecesAreBalanced(v[open + 1..c], 0);
  }

  // ---------- Trimming keeps pieces balanced ----------

  lemma {:induction false} BalancedShift(t: string, i: nat, s: State)
    requires t != "" && i >= 1 && Proper(s)
    ensures NeverBelow(t, i, s) == NeverBelow(t[1..], i - 1, s) && Final(t, i, s) == Final(t[1..], i - 1, s)
    decreases |t| - i
  {
    if i < |t| {
      BalancedShift(t, i + Width(t, i, s.quote), After(t, i, s));
    }
  }

  lemma {:induction false} BalancedTrimLeft(t: string)
    requires Balanced(t)
    ensures Balanced(TrimLeft(t))
  {
    if t != "" && IsSpace(t[0]) {
      BalancedShift(t, 1, START);
      BalancedTrimLeft(t[1..]);
    }
  }

  lemma {:induction false} WithoutLastSpace(t: string, i: nat, s: State)
    requires t != "" && IsSpace(t[|t| - 1]) && i <= |t| && Proper(s)
    requires NeverBelow(t, i, s) && Final(t, i, s) == START
    ensures NeverBelow(t[..|t| - 1], i, s) && Final(t[..|t| - 1], i, s) == START
    decreases |t| - i
  {
    var r := t[..|t| - 1];
    if i < |r| {
      EscapeStaysQuoted(t, i, s);
      assert Width(r, i, s.quote) == Width(t, i, s.quote) && After(r, i, s) == After(t, i, s);
      WithoutLastSpace(t, i + Width(t, i, s.quote), After(t, i, s));
    }
  }

  lemma {:induction false} BalancedTrimRight(t: string)
    requires Balanced(t)
    ensures Balanced(TrimRight(t))
  {
    if t != "" && IsSpace(t[|t| - 1]) {
      WithoutLastSpace(t, 0, START);
      BalancedTrimRight(t[..|t| - 1]);
    }
  }

  lemma {:induction false} TrimmedAreBalanced(s: seq<string>)
    requires forall p :: p in s ==> Balanced(p)
    ensures forall p :: p in TrimAll(s) ==> Balanced(p)
  {
    if s != [] {
      assert s[0] in s;
      BalancedTrimLeft(s[0]);
      BalancedTrimRight(TrimLeft(s[0]));
      forall p | p in s[1..] ensures Balanced(p) {
        assert p in s;
      }
      TrimmedAreBalanced(s[1..]);
    }
  }

  /** So every definition cut from a matched body is balanced. */
  lemma DefinitionsAreBalanced(v: string, open: nat)
    requires open < |v| && v[open] == '(' && Match(v, open, START) >= 0
    ensures forall p :: p in TrimPieces(Pieces(v[open + 1..Match(v, open, START)], 0, 0, START)) ==> Balanced(p)
  {
    var pieces := Pieces(v[open + 1..Match(v, open, START)], 0, 0, START);
    MatchedBody(v, open);
    var front, last := pieces[..|pieces| - 1], pieces[|pieces| - 1];
    assert last in pieces;
    forall p | p in front ensures Balanced(p) {
      assert p in pieces;
    }
    TrimmedAreBalanced(front);
    TrimmedAreBalanced([last]);
    assert TrimAll([last]) == [Trim(last)];
  }

  // ---------- Scanning text that was written down from its structure ----------

  /** Nested text: plain characters, quoted values, and groups in parentheses. */
  datatype Text =
    | End
    | Char(c: char, rest: Text)
    | Quoted(q: char, value: string, rest: Text)
    | Group(inner: Text, rest: Text)

  /** A value between quotes, with a backslash before quotes and backslashes. */
  function Escaped(q: char, value: string): string
  {
    if value == "" then "" else
      (if value[0] == q || value[0] == '\\' then ['\\', value[0]] else [value[0]]) + Escaped(q, value[1..])
  }

  function Print(x: Text): string
  {
    match x
    case End => ""
    case Char(c, rest) => [c] + Print(rest)
    case Quoted(q, value, rest) => [q] + Escaped(q, value) + [q] + Print(rest)
    case Group(inner, rest) => "(" + Print(inner) + ")" + Print(rest)
  }

  /** Plain characters are neither quotes nor parentheses, and a quoted value is not followed by its own quote. */
  predicate Fine(x: Text)
  {
    match x
    case End => true
    case Char(c, rest) => c !in "'\"`()" && Fine(rest)
    case Quoted(q, value, rest) => q in "'\"`" && (Print(rest) == "" || Print(rest)[0] != q) && Fine(rest)
    case Group(inner, rest) => Fine(inner) && Fine(rest)
  }

  /** No comma stands outside groups and quotes. */
  predicate OnePiece(x: Text)
  {
    match x
    case End => true
    case Char(c, rest) => c != ',' && OnePiece(rest)
    case Quoted(_, _, rest) => OnePiece(rest)
    case Group(_, rest) => OnePiece(rest)
  }

  predicate Flat(x: Text)
  {
    match x
    case End => true
    case Char(_, rest) => Flat(rest)
    case Quoted(_, _, rest) => Flat(rest)
    case Group(_, _) => false
  }

  datatype Scanner = Matching | Cutting | Opening

  /** Where a scanner finds what it looks for. */
  predicate Stops(t: string, i: nat, s: State, scanner: Scanner)
    requires i < |t|
  {
    match scanner
    case Matching => s.quote == None && t[i] == ')' && s.depth == 1
    case Cutting => s == START && t[i] == ','
    case Opening => s.quote == None && t[i] == '('
  }

  /** The scan passes from `i` in state `s` to `j` in state `z` and finds nothing on the way. */
  predicate Reaches(t: string, i: nat, s: State, j: nat, z: State, scanner: Scanner)
    decreases j - i
  {
    if i >= j then i == j && s == z
    else i < |t| && !Stops(t, i, s, scanner) && Reaches(t, i + Width(t, i, s.quote), After(t, i, s), j, z, scanner)
  }

  lemma {:induction false} ReachesOn(t: string, i: nat, s: State, j: nat, y: State, k: nat, z: State, scanner: Scanner)
    requires Reaches(t, i, s, j, y, scanner) && Reaches(t, j, y, k, z, scanner) && j <= k
    ensures Reaches(t, i, s, k, z, scanner)
    decreases j - i
  {
    hide Stops, After, Width;
    if i < j {
      WidthIsPositive(t, i, s.quote);
      ReachesOn(t, i + Width(t, i, s.quote), After(t, i, s), j, y, k, z, scanner);
    }
  }

  lemma WidthIsPositive(t: string, i: nat, q: Quote)
    requires i < |t|
    ensures Width(t, i, q) >= 1
  {
  }

  lemma {:induction false} MatchGoesOn(t: string, i: nat, s: State, j: nat, z: State)
    requires Reaches(t, i, s, j, z, Matching)
    ensures Match(t, i, s) == Match(t, j, z)
    decreases j - i
  {
    hide After, Width;
    if i < j {
      WidthIsPositive(t, i, s.quote);
      MatchGoesOn(t, i + Width(t, i, s.quote), After(t, i, s), j, z);
    }
  }

  lemma {:induction false} PieceGoesOn(t: string, start: nat, i: nat, s: State, j: nat, z: State)
    requires start <= i && start <= |t| && Reaches(t, i, s, j, z, Cutting)
    ensures i <= j && Pieces(t, start, i, s) == Pieces(t, start, j, z)
    decreases j - i
  {
    hide After, Width;
    if i < j {
      WidthIsPositive(t, i, s.quote);
      PieceGoesOn(t, start, i + Width(t, i, s.quote), After(t, i, s), j, z);
    }
  }

  lemma {:induction false} OpeningGoesOn(t: string, i: nat, s: State, j: nat, z: State)
    requires Reaches(t, i, s, j, z, Opening)
    ensures FirstOpen(t, i, s.quote) == FirstOpen(t, j, z.quote)
    decreases j - i
  {
    hide Width;
    if i < j {
      WidthIsPositive(t, i, s.quote);
      DepthDoesNotQuote(t, i, s);
      OpeningGoesOn(t, i + Width(t, i, s.quote), After(t, i, s), j, z);
    }
  }

  lemma DepthDoesNotQuote(t: string, i: nat, s: State)
    requires i < |t|
    ensures After(t, i, State(0, s.quote)).quote == After(t, i, s).quote
  {
  }

  /** `part` stands in `t` at `i`. */
  predicate StandsAt(t: string, i: nat, part: string)
  {
    i + |part| <= |t| && t[i..i + |part|] == part
  }

  lemma StandsApart(t: string, i: nat, a: string, b: string)
    requires StandsAt(t, i, a + b)
    ensures StandsAt(t, i, a) && StandsAt(t, i + |a|, b)
  {
    assert t[i..i + |a|] == (a + b)[..|a|] && t[i + |a|..i + |a| + |b|] == (a + b)[|a|..];
  }

  lemma StandsFirst(t: string, i: nat, part: string)
    requires StandsAt(t, i, part) && part != ""
    ensures i < |t| && t[i] == part[0] && (|part| > 1 ==> i + 1 < |t| && t[i + 1] == part[1])
  {
    assert t[i..i + |part|][0] == t[i] && (|part| > 1 ==> t[i..i + |part|][1] == t[i + 1]);
  }

  /** The value between quotes is read to its end. */
  lemma {:induction false} ValueIsRead(t: string, i: nat, q: char, value: string, depth: int, scanner: Scanner)
    requires StandsAt(t, i, Escaped(q, value))
    ensures Reaches(t, i, State(depth, In(q)), i + |Escaped(q, value)|, State(depth, In(q)), scanner)
    decreases |value|
  {
    if value != "" {
      var w, tail := if value[0] == q || value[0] == '\\' then ['\\', value[0]] else [value[0]], Escaped(q, value[1..]);
      assert Escaped(q, value) == w + tail;
      StandsApart(t, i, w, tail);
      StandsFirst(t, i, w);
      ValueIsRead(t, i + |w|, q, value[1..], depth, scanner);
    }
  }

  lemma OneStep(t: string, i: nat, s: State, z: State, scanner: Scanner)
    requires i < |t| && !Stops(t, i, s, scanner) && Width(t, i, s.quote) == 1 && After(t, i, s) == z
    ensures Reaches(t, i, s, i + 1, z, scanner)
  {
    assert Reaches(t, i + 1, z, i + 1, z, scanner);
  }

  lemma QuotedIsRead(t: string, i: nat, q: char, value: string, depth: int, scanner: Scanner)
    requires q in "'\"`" && StandsAt(t, i, [q] + Escaped(q, value) + [q])
    requires var j := i + |Escaped(q, value)| + 2; j < |t| ==> t[j] != q
    ensures var s := State(depth, None); Reaches(t, i, s, i + |Escaped(q, value)| + 2, s, scanner)
  {
    var body := Escaped(q, value);
    var s, inside, j := State(depth, None), State(depth, In(q)), i + 1 + |body|;
    StandsApart(t, i, [q] + body, [q]);
    StandsApart(t, i, [q], body);
    StandsFirst(t, i, [q]);
    StandsFirst(t, j, [q]);
    ValueIsRead(t, i + 1, q, value, depth, scanner);
    hide Reaches, Escaped;
    OneStep(t, i, s, inside, scanner);
    OneStep(t, j, inside, s, scanner);
    ReachesOn(t, i, s, i + 1, inside, j, inside, scanner);
    ReachesOn(t, i, s, j, inside, j + 1, s, scanner);
  }

  /** What each scanner may meet in the text without finding anything. */
  predicate Passes(x: Text, depth: int, scanner: Scanner)
  {
    match scanner
    case Matching => depth >= 1
    case Cutting => depth >= 0 && (depth >= 1 || OnePiece(x))
    case Opening => Flat(x)
  }

  /** Text written down from its structure is read to its end and leaves the scan as it was. */
  lemma {:induction false} TextIsRead(t: string, i: nat, x: Text, depth: int, scanner: Scanner)
    requires Fine(x) && Passes(x, depth, scanner) && StandsAt(t, i, Print(x))
    requires var j := i + |Print(x)|; j < |t| ==> !IsQuote(t[j])
    ensures var s := State(depth, None); Reaches(t, i, s, i + |Print(x)|, s, scanner)
    decreases x, 1
  {
    hide Reaches, StandsAt, IsQuote, Fine, Passes;
    match x
    case End => NothingIsRead(t, i, State(depth, None), scanner);
    case Char(_, _) => CharText(t, i, x, depth, scanner);
    case Quoted(_, _, _) => QuotedText(t, i, x, depth, scanner);
    case Group(_, _) => GroupText(t, i, x, depth, scanner);
  }

  lemma {:induction false} CharText(t: string, i: nat, x: Text, depth: int, scanner: Scanner)
    requires x.Char? && Fine(x) && Passes(x, depth, scanner) && StandsAt(t, i, Print(x))
    requires var j := i + |Print(x)|; j < |t| ==> !IsQuote(t[j])
    ensures var s := State(depth, None); Reaches(t, i, s, i + |Print(x)|, s, scanner)
    decreases x, 0
  {
    hide Reaches, StandsAt, IsQuote;
    StandsApart(t, i, [x.c], Print(x.rest));
    TextIsRead(t, i + 1, x.rest, depth, scanner);
    CharIsRead(t, i, x.c, i + |Print(x)|, depth, scanner);
  }

  lemma {:induction false} QuotedText(t: string, i: nat, x: Text, depth: int, scanner: Scanner)
    requires x.Quoted? && Fine(x) && Passes(x, depth, scanner) && StandsAt(t, i, Print(x))
    requires var j := i + |Print(x)|; j < |t| ==> !IsQuote(t[j])
    ensures var s := State(depth, None); Reaches(t, i, s, i + |Print(x)|, s, scanner)
    decreases x, 0
  {
    hide Reaches, Escaped, StandsAt, IsQuote;
    var quoted := [x.q] + Escaped(x.q, x.value) + [x.q];
    StandsApart(t, i, quoted, Print(x.rest));
    TextIsRead(t, i + |quoted|, x.rest, depth, scanner);
    QuotedThenRest(t, i, x.q, x.value, Print(x.rest), depth, scanner);
  }

  lemma {:induction false} GroupText(t: string, i: nat, x: Text, depth: int, scanner: Scanner)
    requires x.Group? && Fine(x) && Passes(x, depth, scanner) && StandsAt(t, i, Print(x))
    requires var j := i + |Print(x)|; j < |t| ==> !IsQuote(t[j])
    ensures var s := State(depth, None); Reaches(t, i, s, i + |Print(x)|, s, scanner)
    decreases x, 0
  {
    hide Reaches, StandsAt, IsQuote;
    var k := i + 1 + |Print(x.inner)|;
    GroupStands(t, i, Print(x.inner), Print(x.rest));
    ParensAreRead(t, i, k, depth, scanner);
    TextIsRead(t, i + 1, x.inner, depth + 1, scanner);
    TextIsRead(t, k + 1, x.rest, depth, scanner);
    GroupIsRead(t, i, k, i + |Print(x)|, depth, scanner);
  }

  lemma GroupStands(t: string, i: nat, inner: string, rest: string)
    requires StandsAt(t, i, "(" + inner + ")" + rest)
    ensures var k := i + 1 + |inner|;
            StandsAt(t, i, "(") && StandsAt(t, i + 1, inner) && StandsAt(t, k, ")") && StandsAt(t, k + 1, rest)
  {
    hide StandsAt;
    assert "(" + inner + ")" + rest == "(" + (inner + (")" + rest));
    StandsApart(t, i, "(", inner + (")" + rest));
    StandsApart(t, i + 1, inner, ")" + rest);
    StandsApart(t, i + 1 + |inner|, ")", rest);
  }

  lemma GroupIsRead(t: string, i: nat, k: nat, j: nat, depth: int, scanner: Scanner)
    requires i + 1 <= k < j + 1 && k + 1 <= j
    requires Reaches(t, i, State(depth, None), i + 1, State(depth + 1, None), scanner)
    requires Reaches(t, i + 1, State(depth + 1, None), k, State(depth + 1, None), scanner)
    requires Reaches(t, k, State(depth + 1, None), k + 1, State(depth, None), scanner)
    requires Reaches(t, k + 1, State(depth, None), j, State(depth, None), scanner)
    ensures Reaches(t, i, State(depth, None), j, State(depth, None), scanner)
  {
    hide Reaches;
    var s, deeper := State(depth, None), State(depth + 1, None);
    ReachesOn(t, i, s, i + 1, deeper, k, deeper, scanner);
    ReachesOn(t, i, s, k, deeper, k + 1, s, scanner);
    ReachesOn(t, i, s, k + 1, s, j, s, scanner);
  }

  lemma NothingIsRead(t: string, i: nat, s: State, scanner: Scanner)
    ensures Reaches(t, i, s, i, s, scanner)
  {
  }

  lemma CharIsRead(t: string, i: nat, c: char, j: nat, depth: int, scanner: Scanner)
    requires StandsAt(t, i, [c]) && c !in "'\"`()" && i + 1 <= j
    requires scanner == Cutting ==> depth >= 1 || c != ','
    requires Reaches(t, i + 1, State(depth, None), j, State(depth, None), scanner)
    ensures Reaches(t, i, State(depth, None), j, State(depth, None), scanner)
  {
    StandsFirst(t, i, [c]);
    OneStep(t, i, State(depth, None), State(depth, None), scanner);
    ReachesOn(t, i, State(depth, None), i + 1, State(depth, None), j, State(depth, None), scanner);
  }

  lemma QuotedThenRest(t: string, i: nat, q: char, value: string, rest: string, depth: int, scanner: Scanner)
    requires var quoted := [q] + Escaped(q, value) + [q];
             StandsAt(t, i, quoted) && StandsAt(t, i + |quoted|, rest) && q in "'\"`" && (rest == "" || rest[0] != q)
    requires var k := i + |Escaped(q, value)| + 2;
             && Reaches(t, k, State(depth, None), k + |rest|, State(depth, None), scanner)
             && (k + |rest| < |t| ==> !IsQuote(t[k + |rest|]))
    ensures Reaches(t, i, State(depth, None), i + |Escaped(q, value)| + 2 + |rest|, State(depth, None), scanner)
  {
    hide Reaches, Escaped, StandsAt;
    var s, k := State(depth, None), i + |Escaped(q, value)| + 2;
    NextIsNot(t, k, q, rest);
    QuotedIsRead(t, i, q, value, depth, scanner);
    ReachesOn(t, i, s, k, s, k + |rest|, s, scanner);
  }

  lemma NextIsNot(t: string, i: nat, q: char, next: string)
    requires q in "'\"`" && StandsAt(t, i, next) && (next == "" || next[0] != q)
    requires var j := i + |next|; j < |t| ==> !IsQuote(t[j])
    ensures i < |t| ==> t[i] != q
  {
    if next != "" {
      StandsFirst(t, i, next);
    }
  }

  lemma ParensAreRead(t: string, i: nat, k: nat, depth: int, scanner: Scanner)
    requires StandsAt(t, i, "(") && StandsAt(t, k, ")") && scanner != Opening && (scanner == Matching ==> depth >= 1)
    ensures k < |t| && !IsQuote(t[k])
    ensures Reaches(t, i, State(depth, None), i + 1, State(depth + 1, None), scanner)
    ensures Reaches(t, k, State(depth + 1, None), k + 1, State(depth, None), scanner)
  {
    StandsFirst(t, i, "(");
    StandsFirst(t, k, ")");
    OneStep(t, i, State(depth, None), State(depth + 1, None), scanner);
    OneStep(t, k, State(depth + 1, None), State(depth, None), scanner);
  }

  /** The parenthesis that matches an opening one is the one that the structure puts there. */
  lemma MatchIsFound(before: string, x: Text, after: string)
    requires Fine(x)
    ensures Match(before + "(" + Print(x) + ")" + after, |before|, START) == |before| + 1 + |Print(x)|
  {
    hide Reaches, Print;
    var i := |before|;
    var t, k := before + "(" + Print(x) + ")" + after, i + 1 + |Print(x)|;
    assert t[i] == '(' && t[k] == ')' && t[i + 1..k] == Print(x);
    OneStep(t, i, START, State(1, None), Matching);
    TextIsRead(t, i + 1, x, 1, Matching);
    MatchGoesOn(t, i, START, i + 1, State(1, None));
    MatchGoesOn(t, i + 1, State(1, None), k, State(1, None));
  }

  /** The first opening parenthesis is found behind any text without groups. */
  lemma OpeningIsFound(x: Text, after: string)
    requires Fine(x) && Flat(x)
    ensures FirstOpen(Print(x) + "(" + after, 0, None) == |Print(x)|
  {
    hide Reaches, Print;
    var t := Print(x) + "(" + after;
    assert t[0..|Print(x)|] == Print(x) && t[|Print(x)|] == '(';
    TextIsRead(t, 0, x, 0, Opening);
    OpeningGoesOn(t, 0, START, |Print(x)|, START);
  }

  function PrintAll(xs: seq<Text>): (r: seq<string>)
    ensures |r| == |xs|
  {
    if xs == [] then [] else [Print(xs[0])] + PrintAll(xs[1..])
  }

  /** Texts joined by commas are cut into those texts, whatever commas their groups and quotes hold. */
  lemma {:induction false} PiecesAreFound(before: string, xs: seq<Text>)
    requires xs != [] && forall x :: x in xs ==> Fine(x) && OnePiece(x)
    ensures Pieces(before + JoinCommas(PrintAll(xs)), |before|, |before|, START) == PrintAll(xs)
    decreases |xs|
  {
    hide Reaches, Print, JoinCommas;
    var x, i := xs[0], |before|;
    var t, k := before + JoinCommas(PrintAll(xs)), i + |Print(x)|;
    assert x in xs;
    JoinedPrints(xs);
    if |xs| == 1 {
      assert t[i..k] == Print(x) && k == |t| && t[i..] == Print(x);
      TextIsRead(t, i, x, 0, Cutting);
      PieceGoesOn(t, i, i, START, k, START);
    } else {
      var next := JoinCommas(PrintAll(xs[1..]));
      assert t == before + Print(x) + "," + next;
      assert t[i..k] == Print(x) && t[k] == ',';
      TextIsRead(t, i, x, 0, Cutting);
      PieceGoesOn(t, i, i, START, k, START);
      PiecesAreFound(before + Print(x) + ",", xs[1..]);
    }
  }

  lemma JoinedPrints(xs: seq<Text>)
    requires xs != []
    ensures JoinCommas(PrintAll(xs)) ==
            if |xs| == 1 then Print(xs[0]) else Print(xs[0]) + "," + JoinCommas(PrintAll(xs[1..]))
    ensures |xs| == 1 ==> PrintAll(xs) == [Print(xs[0])]
  {
    assert PrintAll(xs)[1..] == PrintAll(xs[1..]);
  }
}
