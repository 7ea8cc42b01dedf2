/**
 Rewriting MySQL string and hex literals for SQLite. Two readers give a statement its meaning, one by each dialect's
 rules; the rewriting keeps the meaning exactly when no hex literal is directly followed by a quote.
 */
module SqlLiterals {

  /** What a statement says: bytes outside strings, the values of strings, and a last string left open. */
  datatype Token = Raw(c: char) | Str(value: string) | Open(value: string)

  /** A string's value, whether it was closed, and the text after it. */
  datatype StringRead = StringRead(value: string, closed: bool, rest: string)
  {
    function Cons(c: char): StringRead
    {
      this.(value := [c] + value)
    }
  }

  predicate IsHex(c: char)
  {
    '0' <= c <= '9' || 'a' <= c <= 'f' || 'A' <= c <= 'F'
  }

  /** The run of hex digits at the front of `t`. */
  function HexRun(t: string): (n: nat)
    ensures n <= |t| && forall k :: 0 <= k < n ==> IsHex(t[k])
    ensures n < |t| ==> !IsHex(t[n])
  {
    if t != "" && IsHex(t[0]) then 1 + HexRun(t[1..]) else 0
  }

  /** The number of digits of a hex literal at the front of `t`, or 0 when there is none. */
  function HexDigits(t: string): (n: nat)
    ensures n > 0 ==> n + 2 <= |t| && t[0] == '0' && forall k :: 2 <= k < n + 2 ==> IsHex(t[k])
  {
    if |t| > 2 && t[0] == '0' && (t[1] == 'x' || t[1] == 'X') then HexRun(t[2..]) else 0
  }

  /** The byte a backslash escape stands for. */
  function Unescape(c: char): char
  {
    match c
    case 'n' => '\n'
    case 'r' => '\r'
    case 't' => '\t'
    case '0' => '\0'
    case _ => c
  }

  // ---------- Reading ----------

  /** The string whose opening quote was just read, with backslash escapes and doubled quotes. */
  function ReadMySqlString(t: string): (r: StringRead)
    ensures |r.rest| <= |t|
    ensures r.closed && r.rest != "" ==> r.rest[0] != '\''
  {
    if t == "" then StringRead("", false, "")
    else if t[0] == '\\' && |t| > 1 then ReadMySqlString(t[2..]).Cons(Unescape(t[1]))
    else if t[0] == '\'' then
      if |t| > 1 && t[1] == '\'' then ReadMySqlString(t[2..]).Cons('\'') else StringRead("", true, t[1..])
    else ReadMySqlString(t[1..]).Cons(t[0])
  }

  /** The same with doubled quotes only. */
  function ReadSqliteString(t: string): (r: StringRead)
    ensures |r.rest| <= |t|
  {
    if t == "" then StringRead("", false, "")
    else if t[0] == '\'' then
      if |t| > 1 && t[1] == '\'' then ReadSqliteString(t[2..]).Cons('\'') else StringRead("", true, t[1..])
    else ReadSqliteString(t[1..]).Cons(t[0])
  }

  /** A statement as MySQL reads it, a hex literal 0xH being X'H'. */
  function ReadMySql(t: string): seq<Token>
    decreases |t|
  {
    if t == "" then []
    else if t[0] == '\'' then
      var s := ReadMySqlString(t[1..]);
      if s.closed then [Str(s.value)] + ReadMySql(s.rest) else [Open(s.value)]
    else if HexDigits(t) > 0 then [Raw('X'), Str(t[2..2 + HexDigits(t)])] + ReadMySql(t[2 + HexDigits(t)..])
    else [Raw(t[0])] + ReadMySql(t[1..])
  }

  /** A statement as SQLite reads it. */
  function ReadSqlite(t: string): seq<Token>
    decreases |t|
  {
    if t == "" then []
    else if t[0] == '\'' then
      var s := ReadSqliteString(t[1..]);
      if s.closed then [Str(s.value)] + ReadSqlite(s.rest) else [Open(s.value)]
    else [Raw(t[0])] + ReadSqlite(t[1..])
  }

  // ---------- Rewriting ----------

  function WriteEscape(c: char): string
  {
    if c == '\'' then "''" else [Unescape(c)]
  }

  /** What is written for `t`, read from inside (`inString`) or outside a string. */
  function Rewrite(t: string, inString: bool): string
    decreases |t|
  {
    if t == "" then ""
    else if !inString then
      if t[0] == '\'' then ['\''] + Rewrite(t[1..], true)
      else if HexDigits(t) > 0 then "X'" + t[2..2 + HexDigits(t)] + "'" + Rewrite(t[2 + HexDigits(t)..], false)
      else [t[0]] + Rewrite(t[1..], false)
    else if t[0] == '\\' && |t| > 1 then WriteEscape(t[1]) + Rewrite(t[2..], true)
    else if t[0] == '\'' && |t| > 1 && t[1] == '\'' then "''" + Rewrite(t[2..], true)
    else [t[0]] + Rewrite(t[1..], t[0] != '\'')
  }

  /** Outside strings, no hex literal is directly followed by a quote. */
  predicate HexStandsClear(t: string)
    decreases |t|
  {
    if t == "" then true
    else if t[0] == '\'' then
      var s := ReadMySqlString(t[1..]);
      s.closed ==> HexStandsClear(s.rest)
    else if HexDigits(t) > 0 then
      var rest := t[2 + HexDigits(t)..];
      (rest == "" || rest[0] != '\'') && HexStandsClear(rest)
    else HexStandsClear(t[1..])
  }

  // ---------- Meaning ----------

  /** Inside a string both readers find the same value, and the output goes on with the rewriting of the rest. */
  lemma {:induction false} StringKept(t: string)
    ensures var m, l := ReadMySqlString(t), ReadSqliteString(Rewrite(t, true));
            l.value == m.value && l.closed == m.closed && (m.closed ==> l.rest == Rewrite(m.rest, false))
    decreases |t|
  {
    if t == "" {
    } else if t[0] == '\\' && |t| > 1 {
      StringKept(t[2..]);
      Lead(WriteEscape(t[1]), Rewrite(t[2..], true));
    } else if t[0] == '\'' {
      if |t| > 1 && t[1] == '\'' {
        StringKept(t[2..]);
        Lead("''", Rewrite(t[2..], true));
      } else {
        FirstWritten(t[1..]);
        Lead("'", Rewrite(t[1..], false));
      }
    } else {
      StringKept(t[1..]);
      Lead([t[0]], Rewrite(t[1..], true));
    }
  }

  lemma Lead(a: string, b: string)
    requires a != ""
    ensures (a + b)[0] == a[0] && (a + b)[|a|..] == b && (|a| > 1 ==> (a + b)[1] == a[1]) &&
            (|a| == 1 && b != "" ==> (a + b)[1] == b[0])
  {
  }

  /** Output for text outside a string starts with a quote only if the text does. */
  lemma FirstWritten(t: string)
    requires t == "" || t[0] != '\''
    ensures Rewrite(t, false) == "" || Rewrite(t, false)[0] != '\''
  {
  }

  /** Reading a quote-free run and its closing quote; a second quote there continues the string. */
  lemma {:induction false} RunRead(h: string, r: string)
    requires forall k :: 0 <= k < |h| ==> h[k] != '\''
    ensures var s := ReadSqliteString(h + "'" + r);
            if r == "" || r[0] != '\'' then s == StringRead(h, true, r) else |s.value| > |h|
  {
    var t := h + "'" + r;
    if h == "" {
      assert t == "'" + r && t[1..] == r && (r != "" ==> t[1] == r[0]);
    } else {
      assert t[0] == h[0] && t[1..] == h[1..] + "'" + r;
      RunRead(h[1..], r);
      assert [h[0]] + h[1..] == h;
    }
  }

  lemma SameHeads(a: seq<Token>, x: seq<Token>, y: seq<Token>)
    ensures a + x == a + y <==> x == y
  {
    if a + x == a + y {
      assert x == (a + x)[|a|..] == (a + y)[|a|..] == y;
    }
  }

  /** A hex literal: what SQLite reads agrees when no quote follows, and differs at its value when one does. */
  lemma HexRead(h: string, t: string)
    requires forall k :: 0 <= k < |h| ==> h[k] != '\''
    ensures if t == "" || t[0] != '\'' then ReadSqlite("X'" + h + "'" + t) == [Raw('X'), Str(h)] + ReadSqlite(t)
            else |ReadSqlite("X'" + h + "'" + t)| >= 2 && ReadSqlite("X'" + h + "'" + t)[1] != Str(h)
  {
    hide *;
    RunRead(h, t);
    var quoted := "'" + h + "'" + t;
    SplitRead("X'" + h + "'" + t, 'X', quoted);
    QuotedRead(quoted, h + "'" + t);
    assert [Raw('X')] + ([Str(h)] + ReadSqlite(t)) == [Raw('X'), Str(h)] + ReadSqlite(t);
  }

  lemma SplitRead(s: string, c: char, r: string)
    requires c != '\'' && s == [c] + r
    ensures ReadSqlite(s) == [Raw(c)] + ReadSqlite(r)
  {
  }

  lemma QuotedRead(s: string, r: string)
    requires s == "'" + r
    ensures var inside := ReadSqliteString(r);
            ReadSqlite(s) == if inside.closed then [Str(inside.value)] + ReadSqlite(inside.rest)
                             else [Open(inside.value)]
  {
  }

  /** The rewriting keeps a statement's meaning if and only if every hex literal stands clear of a following quote. */
  lemma {:induction false} MeaningKept(t: string)
    ensures ReadSqlite(Rewrite(t, false)) == ReadMySql(t) <==> HexStandsClear(t)
    decreases |t|
  {
    if t == "" {
    } else if t[0] == '\'' {
      var inside := Rewrite(t[1..], true);
      Lead("'", inside);
      StringKept(t[1..]);
      var s := ReadMySqlString(t[1..]);
      if s.closed {
        MeaningKept(s.rest);
        SameHeads([Str(s.value)], ReadSqlite(Rewrite(s.rest, false)), ReadMySql(s.rest));
      }
    } else if HexDigits(t) > 0 {
      var h, rest := t[2..2 + HexDigits(t)], t[2 + HexDigits(t)..];
      HexRead(h, Rewrite(rest, false));
      MeaningKept(rest);
      if rest != "" && rest[0] == '\'' {
        assert Rewrite(rest, false)[0] == '\'';
        assert ReadMySql(t)[1] == Str(h);
      } else {
        FirstWritten(rest);
        SameHeads([Raw('X'), Str(h)], ReadSqlite(Rewrite(rest, false)), ReadMySql(rest));
      }
    } else {
      Lead([t[0]], Rewrite(t[1..], false));
      MeaningKept(t[1..]);
      SameHeads([Raw(t[0])], ReadSqlite(Rewrite(t[1..], false)), ReadMySql(t[1..]));
    }
  }

  // ---------- Independent writers ----------

  /** A character as a MySQL dump writes it between quotes. */
  function MySqlEscape(c: char): string
  {
    if c == '\n' then "\\n"
    else if c == '\r' then "\\r"
    else if c == '\t' then "\\t"
    else if c == '\0' then "\\0"
    else if c == '\'' then "\\'"
    else if c == '"' then "\\\""
    else if c == '\\' then "\\\\"
    else [c]
  }

  function MySqlEscaped(value: string): string
  {
    if value == "" then "" else MySqlEscape(value[0]) + MySqlEscaped(value[1..])
  }

  /** A string as SQLite wants it between quotes. */
  function Doubled(value: string): string
  {
    if value == "" then "" else (if value[0] == '\'' then "''" else [value[0]]) + Doubled(value[1..])
  }

  lemma EscapeShape(c: char)
    ensures var w := MySqlEscape(c);
            (w == [c] && c != '\'' && c != '\\') || (|w| == 2 && w[0] == '\\' && Unescape(w[1]) == c)
  {
  }

  lemma EscapeIsRead(c: char, tail: string)
    ensures ReadMySqlString(MySqlEscape(c) + tail) == ReadMySqlString(tail).Cons(c)
  {
    hide MySqlEscape, Unescape;
    EscapeShape(c);
    var w := MySqlEscape(c);
    assert (w + tail)[0] == w[0] && (w + tail)[|w|..] == tail && (|w| == 2 ==> (w + tail)[1] == w[1]);
  }

  /** The reader undoes the dump's escapes. */
  lemma {:induction false} MySqlEscapeIsRead(value: string, rest: string)
    requires rest == "" || rest[0] != '\''
    ensures ReadMySqlString(MySqlEscaped(value) + "'" + rest) == StringRead(value, true, rest)
  {
    hide MySqlEscape;
    if value == "" {
      var t := MySqlEscaped(value) + "'" + rest;
      assert t == "'" + rest && t[1..] == rest && (rest != "" ==> t[1] == rest[0]);
    } else {
      hide ReadMySqlString;
      var tail := MySqlEscaped(value[1..]) + "'" + rest;
      assert MySqlEscaped(value) + "'" + rest == MySqlEscape(value[0]) + tail;
      EscapeIsRead(value[0], tail);
      MySqlEscapeIsRead(value[1..], rest);
      assert [value[0]] + value[1..] == value;
    }
  }

  lemma {:induction false} DoubledIsRead(value: string, rest: string)
    requires rest == "" || rest[0] != '\''
    ensures ReadSqliteString(Doubled(value) + "'" + rest) == StringRead(value, true, rest)
  {
    var t := Doubled(value) + "'" + rest;
    if value == "" {
      assert t == "'" + rest && t[1..] == rest && (rest != "" ==> t[1] == rest[0]);
    } else {
      var tail := Doubled(value[1..]) + "'" + rest;
      DoubledIsRead(value[1..], rest);
      assert [value[0]] + value[1..] == value;
      if value[0] == '\'' {
        assert t == "''" + tail && t[0] == t[1] == '\'' && t[2..] == tail;
      } else {
        assert t == [value[0]] + tail && t[1..] == tail;
      }
    }
  }

  /** So a dumped string becomes a statement that SQLite reads as that string. */
  lemma DumpedStringArrives(value: string)
    ensures ReadSqlite(Rewrite("'" + MySqlEscaped(value) + "'", false)) == [Str(value)]
  {
    var t := "'" + MySqlEscaped(value) + "'";
    assert t[1..] == MySqlEscaped(value) + "'" + "";
    MySqlEscapeIsRead(value, "");
    MeaningKept(t);
    assert [Str(value)] + [] == [Str(value)];
  }

  /** Text without quotes and zeros is left as it is. */
  lemma {:induction false} PlainIsKept(t: string)
    requires forall k :: 0 <= k < |t| ==> t[k] != '\'' && t[k] != '0'
    ensures Rewrite(t, false) == t
  {
    if t != "" {
      PlainIsKept(t[1..]);
    }
  }

  lemma HexMeans(c: char)
    ensures IsHex(c) <==> c in "0123456789abcdefABCDEF"
  {
  }

  lemma {:induction false} HexRunIs(h: string, t: string)
    requires (forall k :: 0 <= k < |h| ==> IsHex(h[k])) && (t == "" || !IsHex(t[0]))
    ensures HexRun(h + t) == |h|
  {
    hide IsHex;
    if h == "" {
      assert h + t == t;
    } else {
      assert (h + t)[0] == h[0] && (h + t)[1..] == h[1..] + t;
      HexRunIs(h[1..], t);
    }
  }

  /** A hex literal, with either letter, becomes a blob literal of the same digits. */
  lemma HexIsRewritten(x: char, h: string, t: string)
    requires (x == 'x' || x == 'X') && h != "" && (forall k :: 0 <= k < |h| ==> IsHex(h[k])) &&
             (t == "" || !IsHex(t[0]))
    ensures Rewrite("0" + [x] + h + t, false) == "X'" + h + "'" + Rewrite(t, false)
  {
    hide IsHex;
    var s := "0" + [x] + h + t;
    HexRunIs(h, t);
    assert s[2..] == h + t && s[0] == '0' && s[1] == x && |s| > 2;
    assert s[2..2 + |h|] == h && s[2 + |h|..] == t;
  }

  lemma RewriteOnce(s: string, i: nat, inString: bool)
    requires i < |s|
    ensures var r, n := Rewrite(s[i..], inString), HexDigits(s[i..]);
            if !inString then
              if s[i] == '\'' then r == "'" + Rewrite(s[i + 1..], true)
              else if n > 0 then i + 2 + n <= |s| &&
                 r == "X'" + s[i + 2..i + 2 + n] + "'" + Rewrite(s[i + 2 + n..], false)
              else r == [s[i]] + Rewrite(s[i + 1..], false)
            else if s[i] == '\\' && i + 1 < |s| then r == WriteEscape(s[i + 1]) + Rewrite(s[i + 2..], true)
            else if s[i] == '\'' && i + 1 < |s| && s[i + 1] == '\'' then r == "''" + Rewrite(s[i + 2..], true)
            else r == [s[i]] + Rewrite(s[i + 1..], s[i] != '\'')
  {
  }

  /** The scan for hex digits from `i + 2` to `end` finds exactly the digits of the literal at `i`. */
  lemma ScannedHex(s: string, i: nat, end: nat)
    requires i + 2 < |s| && s[i] == '0' && (s[i + 1] == 'x' || s[i + 1] == 'X')
    requires i + 2 <= end <= |s| && (forall k :: i + 2 <= k < end ==> IsHex(s[k])) && (end < |s| ==> !IsHex(s[end]))
    ensures HexDigits(s[i..]) == end - i - 2
  {
  }

  /** One turn of the rewriting loop: what is written for the text at `i`, and where reading goes on. */
  method WriteNext(statement: string, i: nat, inString: bool) returns (written: string, next: nat, nextInString: bool)
    requires i < |statement|
    ensures i < next <= |statement|
    ensures Rewrite(statement[i..], inString) == written + Rewrite(statement[next..], nextInString)
  {
    hide Rewrite;
    var ch := statement[i];
    RewriteOnce(statement, i, inString);
    if !inString {
      if ch == '\'' {
        return [ch], i + 1, true;
      }
      if ch == '0' && i + 2 < |statement| && (statement[i + 1] == 'x' || statement[i + 1] == 'X') {
        var end := i + 2;
        while end < |statement| && IsHex(statement[end])
          invariant i + 2 <= end <= |statement| && forall k :: i + 2 <= k < end ==> IsHex(statement[k])
        {
          end := end + 1;
        }
        ScannedHex(statement, i, end);
        if end > i + 2 {
          return "X'" + statement[i + 2..end] + "'", end, false;
        }
      }
      return [ch], i + 1, false;
    }
    if ch == '\\' && i + 1 < |statement| {
      match statement[i + 1] {
      case '\'' => written := "''";
      case '\\' => written := ['\\'];
      case 'n' => written := ['\n'];
      case 'r' => written := ['\r'];
      case 't' => written := ['\t'];
      case '0' => written := ['\0'];
      case _ => written := [statement[i + 1]];
      }
      return written, i + 2, true;
    }
    if ch == '\'' {
      if i + 1 < |statement| && statement[i + 1] == '\'' {
        return [ch, statement[i + 1]], i + 2, true;
      }
      return [ch], i + 1, false;
    }
    return [ch], i + 1, true;
  }

  method NormalizeMySqlLiterals(statement: string) returns (result: string)
    ensures result == Rewrite(statement, false)
    ensures ReadSqlite(result) == ReadMySql(statement) <==> HexStandsClear(statement)
  {
    result := "";
    var inString := false;
    var i := 0;
    while i < |statement|
      invariant 0 <= i <= |statement|
      invariant result + Rewrite(statement[i..], inString) == Rewrite(statement, false)
    {
      var written, next, nextInString := WriteNext(statement, i, inString);
      result, i, inString := result + written, next, nextInString;
    }
    MeaningKept(statement);
  }
}
