/** Splitting a SQL script into statements, and the printer that splitting inverts. */
module SqlSplit {

  /** The byte that opened the current quoted section, if any, or the kind of comment being skipped. */
  datatype Mode = Plain | Quoted(quote: char) | LineComment | BlockComment

  predicate IsQuote(c: char)
  {
    c == '\'' || c == '"' || c == '`'
  }

  predicate IsBlank(c: char)
  {
    c == ' ' || c == '\t' || c == '\r' || c == '\n'
  }

  /** The white space of Unicode beyond ASCII. */
  predicate IsWideSpace(c: char)
  {
    c == '\U{85}' || c == '\U{A0}' || c == '\U{1680}' || '\U{2000}' <= c <= '\U{200A}' || c == '\U{2028}' ||
    c == '\U{2029}' ||
    c == '\U{202F}' || c == '\U{205F}' || c == '\U{3000}'
  }

  /** What the library trims. */
  predicate IsSpace(c: char)
  {
    IsBlank(c) || c == '\U{0B}' || c == '\U{0C}' || IsWideSpace(c)
  }

  function TrimLeft(s: string): string
  {
    if s != [] && IsSpace(s[0]) then TrimLeft(s[1..]) else s
  }

  function TrimRight(s: string): string
  {
    if s != [] && IsSpace(s[|s| - 1]) then TrimRight(s[..|s| - 1]) else s
  }

  function Trim(s: string): string
  {
    TrimRight(TrimLeft(s))
  }

  lemma {:induction false} TrimLeftMeans(s: string)
    ensures var n := |s| - |TrimLeft(s)|;
            && n >= 0 && TrimLeft(s) == s[n..] && (forall k :: 0 <= k < n ==> IsSpace(s[k]))
            && (n < |s| ==> !IsSpace(s[n]))
  {
    if s != "" && IsSpace(s[0]) {
      TrimLeftMeans(s[1..]);
    }
  }

  lemma {:induction false} TrimRightMeans(s: string)
    ensures var n := |TrimRight(s)|;
            && n <= |s| && TrimRight(s) == s[..n] && (forall k :: n <= k < |s| ==> IsSpace(s[k]))
            && (n > 0 ==> !IsSpace(s[n - 1]))
  {
    if s != "" && IsSpace(s[|s| - 1]) {
      TrimRightMeans(s[..|s| - 1]);
    }
  }

  /** Trimming leaves what lies between the first and the last character that is not white space. */
  lemma TrimMeans(s: string)
    ensures Trim(s) == "" <==> forall k :: 0 <= k < |s| ==> IsSpace(s[k])
    ensures Trim(s) != "" ==>
              exists i, j :: 0 <= i < j <= |s| && Trim(s) == s[i..j] && !IsSpace(s[i]) && !IsSpace(s[j - 1]) &&
                             forall k :: 0 <= k < i || j <= k < |s| ==> IsSpace(s[k])
  {
    hide IsSpace, TrimLeft, TrimRight;
    TrimLeftMeans(s);
    var t := TrimLeft(s);
    TrimRightMeans(t);
    var i, j := |s| - |t|, |s| - |t| + |TrimRight(t)|;
    assert t == s[i..] && Trim(s) == TrimRight(t) == s[i..j];
    forall k | 0 <= k < i || j <= k < |s| ensures IsSpace(s[k]) {
      if k >= j {
        assert s[k] == t[k - i];
      }
    }
    if i < j {
      assert s[i] == t[0] && s[j - 1] == t[j - 1 - i];
      assert 0 <= i < j <= |s| && !IsSpace(s[i]) && !IsSpace(s[j - 1]);
    }
  }

  /** A statement is kept when something is left of it after trimming. */
  function Emit(s: string): seq<string>
  {
    if Trim(s) == "" then [] else [Trim(s)]
  }

  /** A line comment starts at `i`: '#', or '--' before a blank or the end of the text. */
  predicate OpensLine(t: string, i: nat)
    requires i < |t|
  {
    t[i] == '#' || (t[i] == '-' && i + 1 < |t| && t[i + 1] == '-' && (i + 2 == |t| || IsBlank(t[i + 2])))
  }

  predicate OpensBlock(t: string, i: nat)
    requires i < |t|
  {
    t[i] == '/' && i + 1 < |t| && t[i + 1] == '*'
  }

  /** How much of the text one step consumes, what of it is kept, and the mode after it. */
  datatype Step = Step(width: nat, kept: string, mode: Mode)

  function StepAt(t: string, i: nat, mode: Mode): (r: Step)
    requires i < |t|
    ensures 1 <= r.width <= |t| - i && |r.kept| <= r.width
  {
    var c := t[i];
    match mode
    case LineComment => Step(1, "", if c == '\n' then Plain else LineComment)
    case BlockComment => if c == '*' && i + 1 < |t| && t[i + 1] == '/' then Step(2, "", Plain)
                         else Step(1, "", BlockComment)
    case Quoted(q) =>
      if c == '\\' && i + 1 < |t| then Step(2, [c, t[i + 1]], mode)
      else if c == q then (if i + 1 < |t| && t[i + 1] == q then Step(2, [c, t[i + 1]], mode) else Step(1, [c], Plain))
      else Step(1, [c], mode)
    case Plain =>
      if IsQuote(c) then Step(1, [c], Quoted(c))
      else if OpensLine(t, i) then Step(if c == '-' then 2 else 1, "", LineComment)
      else if OpensBlock(t, i) then Step(2, "", BlockComment)
      else Step(1, [c], Plain)
  }

  /** An unquoted semicolon ends the statement collected so far in `b`. */
  predicate EndsStatement(t: string, mode: Mode)
  {
    t != [] && mode == Plain && t[0] == ';'
  }

  /** The statements of `t`, read in `mode` after `b`. */
  function Scan(t: string, mode: Mode, b: string): seq<string>
    decreases |t|
  {
    if t == [] then Emit(b)
    else if EndsStatement(t, mode) then Emit(b) + Scan(t[1..], Plain, "")
    else
      var step := StepAt(t, 0, mode);
      Scan(t[step.width..], step.mode, b + step.kept)
  }

  function Split(text: string): seq<string>
  {
    Scan(text, Plain, "")
  }

  function Current(lineComment: bool, blockComment: bool, quote: Mode): Mode
  {
    if lineComment then LineComment else if blockComment then BlockComment else quote
  }

  lemma ScanOnce(text: string, i: nat, mode: Mode, b: string)
    requires i < |text|
    ensures var step := StepAt(text, i, mode);
            Scan(text[i..], mode, b) ==
            if mode == Plain && text[i] == ';' then Emit(b) + Scan(text[i + 1..], Plain, "")
            else Scan(text[i + step.width..], step.mode, if step.kept == "" then b else b + step.kept)
  {
    var step := StepAt(text, i, mode);
    assert b + "" == b;
    assert StepAt(text[i..], 0, mode) == step;
    assert text[i..][1..] == text[i + 1..] && text[i..][step.width..] == text[i + step.width..];
  }

  method SplitSQL(text: string) returns (statements: seq<string>)
    ensures statements == Split(text)
  {
    hide Scan, Emit, Split;
    ScanStarts(text);
    statements := [];
    var b := "";
    var quote: Mode := Plain;
    var lineComment, blockComment := false, false;
    var i := 0;
    while i < |text|
      invariant 0 <= i <= |text| && !(lineComment && blockComment)
      invariant quote == Plain || (quote.Quoted? && !lineComment && !blockComment)
      invariant statements + Scan(text[i..], Current(lineComment, blockComment, quote), b) == Split(text)
    {
      var ch := text[i];
      ScanOnce(text, i, Current(lineComment, blockComment, quote), b);
      if lineComment {
        if ch == '\n' {
          lineComment := false;
        }
        i := i + 1;
        continue;
      }
      if blockComment {
        if ch == '*' && i + 1 < |text| && text[i + 1] == '/' {
          blockComment := false;
          i := i + 1;
        }
        i := i + 1;
        continue;
      }
      if quote != Plain {
        if ch == '\\' && i + 1 < |text| {
          b := b + [ch, text[i + 1]];
          i := i + 2;
          continue;
        }
        if ch == quote.quote {
          if i + 1 < |text| && text[i + 1] == quote.quote {
            b := b + [ch, text[i + 1]];
            i := i + 2;
            continue;
          }
          quote := Plain;
        }
        b := b + [ch];
        i := i + 1;
        continue;
      }
      if ch == '\'' || ch == '"' || ch == '`' {
        quote := Quoted(ch);
        b := b + [ch];
        i := i + 1;
        continue;
      }
      if ch == '#' || (ch == '-' && i + 1 < |text| && text[i + 1] == '-' && (i + 2 == |text| || IsBlank(text[i + 2]))) {
        lineComment := true;
        if ch == '-' {
          i := i + 1;
        }
        i := i + 1;
        continue;
      }
      if ch == '/' && i + 1 < |text| && text[i + 1] == '*' {
        blockComment := true;
        i := i + 2;
        continue;
      }
      if ch == ';' {
        assert statements + (Emit(b) + Scan(text[i + 1..], Plain, "")) ==
                 statements + Emit(b) + Scan(text[i + 1..], Plain, "");
        statements := statements + Emit(b);
        b := "";
        i := i + 1;
        continue;
      }
      b := b + [ch];
      i := i + 1;
    }
    ScanEnds(text, Current(lineComment, blockComment, quote), b);
    statements := statements + Emit(b);
  }

  lemma ScanStarts(text: string)
    ensures [] + Scan(text[0..], Plain, "") == Split(text)
  {
    assert text[0..] == text;
  }

  lemma ScanEnds(text: string, mode: Mode, b: string)
    ensures Scan(text[|text|..], mode, b) == Emit(b)
  {
  }

  // ---------- The printer ----------

  function Print(statements: seq<string>): string
  {
    if statements == [] then "" else statements[0] + ";" + Print(statements[1..])
  }

  predicate IsComment(mode: Mode)
  {
    mode == LineComment || mode == BlockComment
  }

  predicate IsText(mode: Mode)
  {
    mode == Plain || (mode.Quoted? && IsQuote(mode.quote))
  }

  /** Read up to a following semicolon, `s` opens no comment, ends no statement and leaves no quote open. */
  predicate Clean(s: string, mode: Mode)
    decreases |s|
  {
    if s == "" then mode == Plain
    else
      var step := StepAt(s + ";", 0, mode);
      !EndsStatement(s, mode) && !IsComment(step.mode) && step.width <= |s| && Clean(s[step.width..], step.mode)
  }

  predicate WellFormed(s: string)
  {
    s != "" && Trim(s) == s && Clean(s, Plain)
  }

  /** No comment is opened and every quote is closed. */
  predicate Tidy(t: string, mode: Mode)
    decreases |t|
  {
    if t == "" then mode == Plain
    else if EndsStatement(t, mode) then Tidy(t[1..], Plain)
    else
      var step := StepAt(t, 0, mode);
      !IsComment(step.mode) && Tidy(t[step.width..], step.mode)
  }

  /** What one step does before a semicolon does not depend on what follows it. */
  lemma StepIsLocal(s: string, rest: string, mode: Mode)
    requires s != "" && IsText(mode)
    ensures StepAt(s + ";" + rest, 0, mode) == StepAt(s + ";", 0, mode)
  {
  }

  lemma {:induction false} ScanClean(s: string, rest: string, mode: Mode, b: string)
    requires Clean(s, mode) && IsText(mode)
    ensures Scan(s + ";" + rest, mode, b) == Emit(b + s) + Scan(rest, Plain, "")
    decreases |s|
  {
    var t := s + ";" + rest;
    if s == "" {
      assert t == ";" + rest && t[1..] == rest && b + s == b;
    } else {
      StepIsLocal(s, rest, mode);
      var step := StepAt(s + ";", 0, mode);
      var tail := s[step.width..];
      assert t[step.width..] == tail + ";" + rest;
      CleanStepKeeps(s, mode);
      assert b + s == b + step.kept + tail;
      ScanClean(tail, rest, step.mode, b + step.kept);
    }
  }

  lemma CleanStepKeeps(s: string, mode: Mode)
    requires s != "" && Clean(s, mode) && IsText(mode)
    ensures var step := StepAt(s + ";", 0, mode); s == step.kept + s[step.width..] && IsText(step.mode)
  {
  }

  /** Splitting inverts printing. */
  lemma {:induction false} SplitInvertsPrint(statements: seq<string>)
    requires forall s :: s in statements ==> WellFormed(s)
    ensures Split(Print(statements)) == statements
  {
    hide Clean, Scan;
    if statements == [] {
      NothingIsScanned("", Plain, "");
    } else {
      var s := statements[0];
      assert WellFormed(s) && forall r :: r in statements[1..] ==> r in statements;
      SplitInvertsPrint(statements[1..]);
      ScanClean(s, Print(statements[1..]), Plain, "");
      assert "" + s == s;
    }
  }

  // ---------- Comments ----------

  /** `body` up to its end, and then a star and a slash, with no star and slash before. */
  ghost predicate EndsFirstAt(body: string)
  {
    forall k :: 0 <= k < |body| ==> !(body[k] == '*' && (body + "*/")[k + 1] == '/')
  }

  /** A comment up to the end of its line, or one between the block marks. */
  ghost predicate Terminated(c: string)
  {
    (exists body: string :: '\n' !in body && c == "#" + body + "\n") ||
    (exists body: string :: '\n' !in body && (body == "" || body[0] in " \t\r") && c == "--" + body + "\n") ||
    (exists body: string :: EndsFirstAt(body) && c == "/*" + body + "*/")
  }

  lemma {:induction false} LineIsSkipped(body: string, rest: string, b: string)
    requires '\n' !in body
    ensures Scan(body + "\n" + rest, LineComment, b) == Scan(rest, Plain, b)
  {
    var t := body + "\n" + rest;
    assert b + "" == b;
    if body == "" {
      assert t[1..] == rest;
    } else {
      assert t[0] in body && t[1..] == body[1..] + "\n" + rest;
      LineIsSkipped(body[1..], rest, b);
    }
  }

  lemma {:induction false} BlockIsSkipped(body: string, rest: string, b: string)
    requires EndsFirstAt(body)
    ensures Scan(body + "*/" + rest, BlockComment, b) == Scan(rest, Plain, b)
  {
    var t := body + "*/" + rest;
    assert b + "" == b;
    if body == "" {
      assert t[0] == '*' && t[1] == '/' && t[2..] == rest;
    } else {
      assert t[0] == body[0] && t[1] == (body + "*/")[1] && t[1..] == body[1..] + "*/" + rest;
      assert !(t[0] == '*' && t[1] == '/');
      forall k | 0 <= k < |body[1..]| ensures !(body[1..][k] == '*' && (body[1..] + "*/")[k + 1] == '/') {
        assert body[1..][k] == body[k + 1] && (body[1..] + "*/")[k + 1] == (body + "*/")[k + 2];
      }
      BlockIsSkipped(body[1..], rest, b);
    }
  }

  lemma HashOpens(t: string, rest: string, b: string)
    requires t == "#" + rest
    ensures Scan(t, Plain, b) == Scan(rest, LineComment, b)
  {
    assert t[1..] == rest && b + "" == b;
  }

  lemma DashesOpen(t: string, rest: string, b: string)
    requires t == "--" + rest && (rest == "" || rest[0] in " \t\r\n")
    ensures Scan(t, Plain, b) == Scan(rest, LineComment, b)
  {
    assert t[0] == '-' && t[1] == '-' && t[2..] == rest && b + "" == b && (rest != "" ==> t[2] == rest[0]);
  }

  lemma BlockOpens(t: string, rest: string, b: string)
    requires t == "/*" + rest
    ensures Scan(t, Plain, b) == Scan(rest, BlockComment, b)
  {
    assert t[0] == '/' && t[1] == '*' && t[2..] == rest && b + "" == b;
  }

  /** A terminated comment outside quotes is as if it were not there. */
  lemma CommentIsSkipped(c: string, rest: string, b: string)
    requires Terminated(c)
    ensures Scan(c + rest, Plain, b) == Scan(rest, Plain, b)
  {
    hide Scan, EndsFirstAt;
    if body: string :| '\n' !in body && c == "#" + body + "\n" {
      assert c + rest == "#" + (body + "\n" + rest);
      HashOpens(c + rest, body + "\n" + rest, b);
      LineIsSkipped(body, rest, b);
    } else if body: string :| '\n' !in body && (body == "" || body[0] in " \t\r") && c == "--" + body + "\n" {
      assert c + rest == "--" + (body + "\n" + rest);
      DashesOpen(c + rest, body + "\n" + rest, b);
      LineIsSkipped(body, rest, b);
    } else {
      var body: string :| EndsFirstAt(body) && c == "/*" + body + "*/";
      assert c + rest == "/*" + (body + "*/" + rest);
      BlockOpens(c + rest, body + "*/" + rest, b);
      BlockIsSkipped(body, rest, b);
    }
  }

  // ---------- Quotes and plain text ----------

  /** A value between quotes, its quotes doubled and its backslashes escaped. */
  function Doubled(q: char, value: string): string
  {
    if value == "" then "" else
      (if value[0] == q then [q, q] else if value[0] == '\\' then "\\\\" else [value[0]]) + Doubled(q, value[1..])
  }

  lemma {:induction false} ValueIsKept(q: char, value: string, rest: string, b: string)
    requires rest == "" || rest[0] != q
    requires q != '\\'
    ensures Scan(Doubled(q, value) + [q] + rest, Quoted(q), b) == Scan(rest, Plain, b + Doubled(q, value) + [q])
    decreases |value|
  {
    var t := Doubled(q, value) + [q] + rest;
    if value == "" {
      assert t[0] == q && t[1..] == rest && (rest != "" ==> t[1] == rest[0]) && b + "" + [q] == b + [q];
    } else {
      var w := if value[0] == q then [q, q] else if value[0] == '\\' then "\\\\" else [value[0]];
      var tail := Doubled(q, value[1..]) + [q] + rest;
      assert t == w + tail && t[0] == w[0] && t[|w|..] == tail && (|w| == 2 ==> t[1] == w[1]);
      ValueIsKept(q, value[1..], rest, b + w);
      assert b + w + Doubled(q, value[1..]) + [q] == b + Doubled(q, value) + [q];
    }
  }

  /** Whatever stands between quotes, semicolons and comment marks included, is kept as it is. */
  lemma QuotedIsKept(q: char, value: string, rest: string, b: string)
    requires q in "'\"`" && (rest == "" || rest[0] != q)
    ensures var text := [q] + Doubled(q, value) + [q]; Scan(text + rest, Plain, b) == Scan(rest, Plain, b + text)
  {
    var t := [q] + Doubled(q, value) + [q] + rest;
    assert t[0] == q && t[1..] == Doubled(q, value) + [q] + rest;
    ValueIsKept(q, value, rest, b + [q]);
    assert b + [q] + Doubled(q, value) + [q] == b + ([q] + Doubled(q, value) + [q]);
  }

  /** Outside quotes a character is kept unless it ends the statement or opens a quote or a comment. */
  lemma PlainIsKept(c: char, rest: string, b: string)
    requires c !in "'\"`#;"
    requires c == '-' ==> !(rest != "" && rest[0] == '-' && (|rest| == 1 || rest[1] in " \t\r\n"))
    requires c == '/' ==> rest == "" || rest[0] != '*'
    ensures Scan([c] + rest, Plain, b) == Scan(rest, Plain, b + [c])
  {
    var t := [c] + rest;
    assert t[0] == c && t[1..] == rest && (rest != "" ==> t[1] == rest[0]) && (|rest| > 1 ==> t[2] == rest[1]);
  }

  /** A semicolon there ends the statement, which counts when it is not blank. */
  lemma SemicolonEnds(rest: string, b: string)
    ensures Scan(";" + rest, Plain, b) == (if Trim(b) == "" then [] else [Trim(b)]) + Scan(rest, Plain, "")
  {
    assert (";" + rest)[1..] == rest;
  }

  /** The statements with a comment, or nothing, before each of them and after the last. */
  function PrintCommented(statements: seq<string>, comments: seq<string>): string
    requires |comments| == |statements| + 1
  {
    if statements == [] then comments[0]
    else comments[0] + statements[0] + ";" + PrintCommented(statements[1..], comments[1..])
  }

  /** Comments between statements change nothing. */
  lemma {:induction false} SplitSkipsComments(statements: seq<string>, comments: seq<string>)
    requires |comments| == |statements| + 1 && (forall s :: s in statements ==> WellFormed(s))
    requires forall c :: c in comments ==> c == "" || Terminated(c)
    ensures Split(PrintCommented(statements, comments)) == statements
  {
    hide Clean, Scan, Terminated;
    var c := comments[0];
    assert c in comments;
    if statements == [] {
      CommentOrNothing(c, "");
      NothingIsScanned("", Plain, "");
      assert c + "" == c;
    } else {
      var s, rest := statements[0], PrintCommented(statements[1..], comments[1..]);
      assert s in statements;
      CommentOrNothing(c, s + ";" + rest);
      assert c + s + ";" + rest == c + (s + ";" + rest);
      SplitSkipsComments(statements[1..], comments[1..]);
      ScanClean(s, rest, Plain, "");
      assert "" + s == s;
    }
  }

  lemma CommentOrNothing(c: string, rest: string)
    requires c == "" || Terminated(c)
    ensures Scan(c + rest, Plain, "") == Scan(rest, Plain, "")
  {
    hide Terminated;
    if c == "" {
      assert c + rest == rest;
    } else {
      CommentIsSkipped(c, rest, "");
    }
  }

  /** A comment that is never closed swallows the rest of the text. */
  lemma {:induction false} OpenCommentSwallows(body: string, b: string)
    ensures '\n' !in body ==> Scan(body, LineComment, b) == Emit(b)
    ensures (forall k :: 0 <= k < |body| - 1 ==> !(body[k] == '*' && body[k + 1] == '/')) ==>
              Scan(body, BlockComment, b) == Emit(b)
  {
    assert b + "" == b;
    if body != "" {
      OpenCommentSwallows(body[1..], b);
      assert '\n' !in body ==> body[0] in body && '\n' !in body[1..];
      if forall k :: 0 <= k < |body| - 1 ==> !(body[k] == '*' && body[k + 1] == '/') {
        forall k | 0 <= k < |body[1..]| - 1 ensures !(body[1..][k] == '*' && body[1..][k + 1] == '/') {
          assert body[1..][k] == body[k + 1] && body[1..][k + 1] == body[k + 2];
        }
      }
    }
  }

  // ---------- What splitting returns ----------

  /** How much of `t` the first statement takes. */
  function FirstLength(t: string, mode: Mode): (n: nat)
    ensures n <= |t|
    decreases |t|
  {
    if t == "" || EndsStatement(t, mode) then 0 else
      var step := StepAt(t, 0, mode);
      step.width + FirstLength(t[step.width..], step.mode)
  }

  /** The first statement of tidy text is clean, ends at a semicolon or the end, and leaves tidy text. */
  lemma {:induction false} FirstIsClean(t: string, mode: Mode)
    requires Tidy(t, mode) && IsText(mode)
    ensures var n := FirstLength(t, mode);
            Clean(t[..n], mode) && (n < |t| ==> t[n] == ';' && Tidy(t[n + 1..], Plain))
    decreases |t|
  {
    hide *;
    var n := FirstLength(t, mode);
    if t == "" || EndsStatement(t, mode) {
      FirstIsEmpty(t, mode);
    } else {
      var step := StepAt(t, 0, mode);
      TidyStep(t, mode);
      FirstIsClean(t[step.width..], step.mode);
      Slices(t, step.width, n - step.width);
      FirstStepInside(t, mode, n);
      CleanStep(t[..n], mode, step);
    }
  }

  lemma FirstIsEmpty(t: string, mode: Mode)
    requires Tidy(t, mode) && (t == "" || EndsStatement(t, mode))
    ensures FirstLength(t, mode) == 0 && Clean(t[..0], mode) && (t != "" ==> t[0] == ';' && Tidy(t[1..], Plain))
  {
  }

  /** The step at the front of tidy text is the same when only the first statement and a semicolon are there. */
  lemma FirstStepInside(t: string, mode: Mode, n: nat)
    requires t != "" && Tidy(t, mode) && !EndsStatement(t, mode) && IsText(mode) && 0 < n <= |t|
    requires n < |t| ==> t[n] == ';'
    ensures !EndsStatement(t[..n], mode) && StepAt(t[..n] + ";", 0, mode) == StepAt(t, 0, mode)
  {
  }

  lemma Slices(t: string, w: nat, m: nat)
    requires w + m <= |t|
    ensures var n, tail := w + m, t[w..];
            && t[..n] == t[..w] + tail[..m] && t[..n][w..] == tail[..m]
            && (n == |t| ==> t[..n] == t)
            && (n < |t| ==> tail[m] == t[n] && tail[m + 1..] == t[n + 1..] && t[..n] + [t[n]] + t[n + 1..] == t)
  {
  }

  /** Scanning tidy text takes the first statement whole and goes on after its semicolon. */
  lemma {:induction false} FirstIsScanned(t: string, mode: Mode, b: string)
    requires Tidy(t, mode) && IsText(mode)
    ensures var n := FirstLength(t, mode);
            Scan(t, mode, b) == Emit(b + t[..n]) + if n < |t| then Split(t[n + 1..]) else []
    decreases |t|
  {
    hide Emit, StepAt, Scan, Split, Tidy, FirstLength;
    var n := FirstLength(t, mode);
    if t == "" || EndsStatement(t, mode) {
      NothingIsScanned(t, mode, b);
    } else {
      var step := StepAt(t, 0, mode);
      var tail := t[step.width..];
      TidyStep(t, mode);
      FirstIsScanned(tail, step.mode, b + step.kept);
      ScanStep(t, mode, b);
      Slices(t, step.width, n - step.width);
      assert b + step.kept + tail[..n - step.width] == b + t[..n];
    }
  }

  lemma NothingIsScanned(t: string, mode: Mode, b: string)
    requires t == "" || EndsStatement(t, mode)
    ensures FirstLength(t, mode) == 0 && b + t[..0] == b
    ensures Scan(t, mode, b) == Emit(b) + if t != "" then Split(t[1..]) else []
  {
    hide Emit, StepAt;
  }

  lemma TidyStep(t: string, mode: Mode)
    requires t != "" && Tidy(t, mode) && !EndsStatement(t, mode) && IsText(mode)
    ensures var step := StepAt(t, 0, mode);
            && !IsComment(step.mode) && step.kept == t[..step.width] && IsText(step.mode) &&
               Tidy(t[step.width..], step.mode)
            && FirstLength(t, mode) == step.width + FirstLength(t[step.width..], step.mode)
  {
  }

  lemma ScanStep(t: string, mode: Mode, b: string)
    requires t != "" && !EndsStatement(t, mode)
    ensures var step := StepAt(t, 0, mode); Scan(t, mode, b) == Scan(t[step.width..], step.mode, b + step.kept)
  {
  }

  lemma CleanStep(s: string, mode: Mode, step: Step)
    requires s != "" && !EndsStatement(s, mode) && StepAt(s + ";", 0, mode) == step
    requires !IsComment(step.mode) && step.width <= |s| && Clean(s[step.width..], step.mode)
    ensures Clean(s, mode)
  {
  }

  lemma {:induction false} CleanTrimLeft(s: string)
    requires Clean(s, Plain)
    ensures Clean(TrimLeft(s), Plain)
  {
    if s != "" && IsSpace(s[0]) {
      assert (s + ";")[0] == s[0];
      CleanTrimLeft(s[1..]);
    }
  }

  lemma {:induction false} CleanWithoutLastSpace(s: string, mode: Mode)
    requires s != "" && IsSpace(s[|s| - 1]) && Clean(s, mode) && IsText(mode)
    ensures Clean(s[..|s| - 1], mode)
    decreases |s|
  {
    var r := s[..|s| - 1];
    var t, u := s + ";", r + ";";
    var step := StepAt(t, 0, mode);
    CleanStepKeeps(s, mode);
    assert t[0] == s[0] && (|s| > 1 ==> t[1] == s[1]) && (|s| > 2 ==> t[2] == s[2]);
    if |s| == step.width {
      assert s[step.width..] == "";
    } else {
      assert r != "" && u[0] == s[0] && (|s| > 2 ==> u[1] == s[1]) && (|s| > 3 ==> u[2] == s[2]);
      assert |s| == 2 ==> u[1] == ';';
      assert |s| == 3 ==> u[2] == ';';
      assert StepAt(u, 0, mode) == step;
      assert r[step.width..] == s[step.width..][..|s| - step.width - 1];
      CleanWithoutLastSpace(s[step.width..], step.mode);
    }
  }

  lemma {:induction false} CleanTrimRight(s: string)
    requires Clean(s, Plain)
    ensures Clean(TrimRight(s), Plain)
  {
    if s != "" && IsSpace(s[|s| - 1]) {
      CleanWithoutLastSpace(s, Plain);
      CleanTrimRight(s[..|s| - 1]);
    }
  }

  lemma {:induction false} TrimmedEnds(s: string)
    ensures TrimLeft(s) == "" || !IsSpace(TrimLeft(s)[0])
    ensures TrimRight(s) == "" || (!IsSpace(TrimRight(s)[|TrimRight(s)| - 1]) && s != "" && TrimRight(s)[0] == s[0])
    decreases |s|
  {
    if s != "" {
      TrimmedEnds(s[1..]);
      TrimmedEnds(s[..|s| - 1]);
    }
  }

  lemma TrimTwice(s: string)
    ensures Trim(Trim(s)) == Trim(s)
  {
    TrimmedEnds(s);
    TrimmedEnds(TrimLeft(s));
    assert TrimLeft(Trim(s)) == Trim(s);
  }

  lemma EmittedIsWellFormed(s: string)
    requires Clean(s, Plain)
    ensures forall x :: x in Emit(s) ==> WellFormed(x)
  {
    hide Clean, TrimLeft, TrimRight;
    CleanTrimLeft(s);
    CleanTrimRight(TrimLeft(s));
    TrimTwice(s);
  }

  /** Every statement split from tidy text is well formed. */
  lemma {:induction false} SplitIsWellFormed(t: string)
    requires Tidy(t, Plain)
    ensures forall s :: s in Split(t) ==> WellFormed(s)
    decreases |t|
  {
    hide Emit, FirstLength, Tidy, Clean, Scan, WellFormed;
    var n := FirstLength(t, Plain);
    FirstIsClean(t, Plain);
    FirstIsScanned(t, Plain, "");
    assert "" + t[..n] == t[..n];
    EmittedIsWellFormed(t[..n]);
    if n < |t| {
      SplitIsWellFormed(t[n + 1..]);
    }
  }

  /** Printing what was split and splitting again changes nothing. */
  lemma SplitIsIdempotent(t: string)
    requires Tidy(t, Plain)
    ensures Split(Print(Split(t))) == Split(t)
  {
    SplitIsWellFormed(t);
    SplitInvertsPrint(Split(t));
  }
}
