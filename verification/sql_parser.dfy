/** The SQL front end of the relational database (backend/RELATIONAL-DATABASE/
    src/Parser.cpp): `parse` picks the command from its first word and
    `parseCreateTable` reads a table name and its column definitions. The
    parsers of the other four commands have no body yet, so their outcome is
    only named here. */
module SqlParser {
  import opened Wrappers
  import opened Bytes
  import opened Text

  /** `std::string::npos`, the largest `size_t`. */
  const NPOS: nat := TWO_TO_THE_64 - 1

  /** The column types of `type_map`. */
  datatype ColumnType = INT | BIGINT | STRING | BOOL | FLOAT | NULLTYPE

  /** The commands of `cmd_map`. */
  datatype CommandType = CREATE_TABLE | INSERT | SELECT | UPDATE | DELETE

  /** `ColumnInfo`: every successful parse sets the type; the flags start as
      not a key, not a foreign key, nullable. */
  datatype Column = Column(
    name: string, colType: ColumnType,
    isPrimaryKey: bool, isForeignKey: bool, isNullable: bool,
    refTable: string, refColumn: string)

  /** `CreateTableCommand`: the name and the columns in input order. */
  datatype Table = Table(tableName: string, columns: seq<Column>)

  /** What `parse` hands back: a null pointer, a table, or one of the four
      commands whose parser is still empty. */
  datatype Parsed = Null | Created(table: Table) | Unfinished(command: CommandType)

  // ---------------------------------------------------------------------
  // Keywords and types
  // ---------------------------------------------------------------------

  function CommandName(c: CommandType): string {
    match c
    case CREATE_TABLE => "CREATE"
    case INSERT => "INSERT"
    case SELECT => "SELECT"
    case UPDATE => "UPDATE"
    case DELETE => "DELETE"
  }

  /** `cmd_map.find`: exact, upper-case keys. */
  function Command(word: string): (r: Option<CommandType>)
    ensures r.Some? ==> CommandName(r.value) == word
  {
    if word == "CREATE" then Some(CREATE_TABLE)
    else if word == "INSERT" then Some(INSERT)
    else if word == "SELECT" then Some(SELECT)
    else if word == "UPDATE" then Some(UPDATE)
    else if word == "DELETE" then Some(DELETE)
    else None
  }

  /** The map is one-to-one: each keyword names exactly its command. */
  lemma {:induction false} CommandNames(word: string, c: CommandType)
    ensures Command(word) == Some(c) <==> word == CommandName(c)
  {
  }

  function TypeName(t: ColumnType): string {
    match t
    case INT => "INT"
    case BIGINT => "BIGINT"
    case STRING => "STRING"
    case BOOL => "BOOL"
    case FLOAT => "FLOAT"
    case NULLTYPE => "NULLTYPE"
  }

  /** `type_map.find`: exact, case-sensitive. */
  function TypeOf(word: string): (r: Option<ColumnType>)
    ensures r.Some? ==> TypeName(r.value) == word
  {
    if word == "INT" then Some(INT)
    else if word == "BIGINT" then Some(BIGINT)
    else if word == "STRING" then Some(STRING)
    else if word == "BOOL" then Some(BOOL)
    else if word == "FLOAT" then Some(FLOAT)
    else if word == "NULLTYPE" then Some(NULLTYPE)
    else None
  }

  lemma {:induction false} TypeNames(word: string, t: ColumnType)
    ensures TypeOf(word) == Some(t) <==> word == TypeName(t)
  {
  }

  /** `std::toupper` in the C locale: only 'a'..'z' change. */
  function ToUpper(c: char): char {
    if 'a' <= c <= 'z' then (c as int - 32) as char else c
  }

  function Upper(s: string): string {
    seq(|s|, i requires 0 <= i < |s| => ToUpper(s[i]))
  }

  predicate IsLetter(c: char) {
    'A' <= c <= 'Z' || 'a' <= c <= 'z'
  }

  // ---------------------------------------------------------------------
  // Searches
  // ---------------------------------------------------------------------

  /** `s.find(c, from)`; `None` is `npos`. */
  function FindChar(s: string, c: char, from: nat): (r: Option<nat>)
    ensures r.Some? ==> from <= r.value < |s| && s[r.value] == c
    decreases |s| - from
  {
    if from >= |s| then None
    else if s[from] == c then Some(from)
    else FindChar(s, c, from + 1)
  }

  /** No `c` comes before the one found, nor anywhere when none is. */
  lemma {:induction false} FindCharFirst(s: string, c: char, from: nat)
    ensures var r := FindChar(s, c, from);
      forall j :: from <= j < |s| && (r.None? || j < r.value) ==> s[j] != c
    decreases |s| - from
  {
    if from < |s| && s[from] != c {
      FindCharFirst(s, c, from + 1);
    }
  }

  /** The search finds the first `c` at or after `from`. */
  lemma {:induction false} FindCharIs(s: string, c: char, from: nat, k: nat)
    requires from <= k <= |s| && (k < |s| ==> s[k] == c)
    requires forall j :: from <= j < k ==> s[j] != c
    ensures FindChar(s, c, from) == if k < |s| then Some(k) else None
    decreases k - from
  {
    if from < k {
      FindCharIs(s, c, from + 1, k);
    }
  }

  /** `pat` occurs in `s` at `j`. */
  predicate At(s: string, pat: string, j: nat) {
    j + |pat| <= |s| && s[j..j + |pat|] == pat
  }

  /** `s.find(pat, from)`; `None` is `npos`. */
  function FindFrom(s: string, pat: string, from: nat): (r: Option<nat>)
    ensures r.Some? ==> from <= r.value && At(s, pat, r.value)
    decreases |s| - from
  {
    if from + |pat| > |s| then None
    else if At(s, pat, from) then Some(from)
    else FindFrom(s, pat, from + 1)
  }

  /** `pat` occurs nowhere before the match found, nor anywhere when none is. */
  lemma {:induction false} FindFromFirst(s: string, pat: string, from: nat)
    ensures var r := FindFrom(s, pat, from);
      forall j: nat :: from <= j && (r.None? || j < r.value) ==> !At(s, pat, j)
    decreases |s| - from
  {
    if from + |pat| <= |s| && !At(s, pat, from) {
      FindFromFirst(s, pat, from + 1);
    }
  }

  /** The search finds the first occurrence at or after `from`. */
  lemma {:induction false} FindFromIs(s: string, pat: string, from: nat, k: nat)
    requires from <= k && At(s, pat, k)
    requires forall j: nat :: from <= j < k ==> !At(s, pat, j)
    ensures FindFrom(s, pat, from) == Some(k)
    decreases k - from
  {
    if from < k {
      FindFromIs(s, pat, from + 1, k);
    }
  }

  /** `s.substr(pos, count)`: the count is cut at the end of the text. */
  function Substr(s: string, pos: nat, count: nat): (r: string)
    requires pos <= |s|
    ensures r == s[pos..if pos + count < |s| then pos + count else |s|]
  {
    if pos + count < |s| then s[pos..pos + count] else s[pos..]
  }

  /** `find_first_not_of(" \t\n\v\f\r", from)`, with `|s|` for `npos`. */
  function SkipSpace(s: string, from: nat): (r: nat)
    requires from <= |s|
    ensures from <= r <= |s|
    decreases |s| - from
  {
    if from == |s| || !IsSpace(s[from]) then from else SkipSpace(s, from + 1)
  }

  /** `find_first_of(" \n\t\r\v\f", from)`, with `|s|` for `npos`. */
  function SkipWord(s: string, from: nat): (r: nat)
    requires from <= |s|
    ensures from <= r <= |s|
    decreases |s| - from
  {
    if from == |s| || IsSpace(s[from]) then from else SkipWord(s, from + 1)
  }

  // ---------------------------------------------------------------------
  // The token loop of one column
  // ---------------------------------------------------------------------

  /** The loop that splits one column's text `line` into tokens, from
      position `sp` while `sp < limit`. `limit` is `endLine - start`: the
      length of `line` when the column ended at ',' or ");", and
      `npos - start` when no ");" was found. A search for the next token
      that finds only white space gives null; a token that runs to the end
      of `line` sets `sp` past `limit` and ends the loop. */
  function Scan(line: string, sp: nat, limit: int): (r: Option<seq<string>>)
    requires sp <= |line| <= limit
    decreases |line| - sp
  {
    if sp >= limit then Some([])
    else
      var p := SkipSpace(line, sp);
      if p == |line| then None
      else
        var e := SkipWord(line, p);
        var token := line[p..e];
        if e == |line| then Some([token])
        else match Scan(line, e + 1, limit)
          case None => None
          case Some(more) => Some([token] + more)
  }

  /** Words written with one space between them. */
  function Join(words: seq<string>): string
    decreases |words|
  {
    if |words| == 0 then ""
    else if |words| == 1 then words[0]
    else words[0] + " " + Join(words[1..])
  }

  lemma {:induction false} SkipSpaceTo(s: string, from: nat, n: nat)
    requires from + n <= |s| && AllSpace(s[from..from + n])
    requires from + n < |s| ==> !IsSpace(s[from + n])
    ensures SkipSpace(s, from) == from + n
    decreases n
  {
    if n > 0 {
      assert s[from..from + n][0] == s[from];
      assert s[from + 1..from + 1 + (n - 1)] == s[from..from + n][1..];
      SkipSpaceTo(s, from + 1, n - 1);
    }
  }

  lemma {:induction false} SkipWordTo(s: string, from: nat, w: string)
    requires IsWord(w) && from + |w| <= |s| && s[from..from + |w|] == w
    requires from + |w| < |s| ==> IsSpace(s[from + |w|])
    ensures SkipWord(s, from) == from + |w|
    decreases |w|
  {
    assert s[from] == w[0];
    if |w| > 1 {
      assert s[from + 1..from + 1 + |w[1..]|] == w[1..];
      SkipWordTo(s, from + 1, w[1..]);
    }
  }

  lemma {:induction false} Pieces(line: string, sp: nat, a: string, b: string, c: string)
    requires sp <= |line| && line[sp..] == a + b + c
    ensures line[sp..sp + |a|] == a && line[sp + |a|..sp + |a| + |b|] == b
    ensures line[sp + |a| + |b|..] == c
  {
    assert line[sp..sp + |a|] == line[sp..][..|a|];
    assert line[sp + |a|..sp + |a| + |b|] == line[sp..][|a|..|a| + |b|];
    assert line[sp + |a| + |b|..] == line[sp..][|a| + |b|..];
  }

  /** One step of the loop: leading white space, then the word `w` up to
      the white space that starts `tail` or the end of `line`. */
  lemma {:induction false} ScanStep(line: string, sp: nat, lead: string, w: string, tail: string)
    requires sp <= |line|
    requires IsWord(w) && AllSpace(lead) && (|tail| > 0 ==> IsSpace(tail[0]))
    requires line[sp..] == lead + w + tail
    ensures var p := sp + |lead|;
      && p + |w| + |tail| == |line|
      && SkipSpace(line, sp) == p && p < |line|
      && SkipWord(line, p) == p + |w| && line[p..p + |w|] == w
  {
    Pieces(line, sp, lead, w, tail);
    var p := sp + |lead|;
    assert line[p] == w[0];
    SkipSpaceTo(line, sp, |lead|);
    if |tail| > 0 {
      assert line[p + |w|] == tail[0];
    }
    SkipWordTo(line, p, w);
  }

  /** After the last word, the loop looks at the white-space tail. */
  lemma {:induction false} ScanTail(line: string, sp: nat, limit: int, trail: string)
    requires sp <= |line| <= limit && AllSpace(trail) && line[sp..] == trail
    ensures Scan(line, sp, limit) == if |trail| == 0 && limit == |line| then Some([]) else None
  {
    if sp < |line| {
      assert AllSpace(line[sp..|line|]);
      SkipSpaceTo(line, sp, |line| - sp);
    }
  }

  /** The last word, then the white-space tail. */
  lemma ScanLast(line: string, sp: nat, limit: int, lead: string, w: string, trail: string)
    requires sp <= |line| <= limit
    requires IsWord(w) && AllSpace(lead) && AllSpace(trail)
    requires line[sp..] == lead + w + trail
    ensures Scan(line, sp, limit) == if |trail| == 0 || (|trail| == 1 && limit == |line|) then Some([w]) else None
  {
    ScanStep(line, sp, lead, w, trail);
    var p := sp + |lead|;
    var e := p + |w|;
    if |trail| == 0 {
      ScanEnd(line, sp, limit, p, e);
    } else {
      Pieces(line, sp, lead + w, [trail[0]], trail[1..]);
      ScanTail(line, e + 1, limit, trail[1..]);
      ScanGoesOn(line, sp, limit, p, e);
      assert [w] + [] == [w];
    }
  }

  lemma {:induction false} ScanEnd(line: string, sp: nat, limit: int, p: nat, e: nat)
    requires sp <= |line| <= limit && sp < limit
    requires SkipSpace(line, sp) == p < |line| && SkipWord(line, p) == e == |line|
    ensures Scan(line, sp, limit) == Some([line[p..e]])
  {
  }

  lemma {:induction false} ScanGoesOn(line: string, sp: nat, limit: int, p: nat, e: nat)
    requires sp <= |line| <= limit && sp < limit
    requires SkipSpace(line, sp) == p < |line| && SkipWord(line, p) == e < |line|
    ensures Scan(line, sp, limit) == match Scan(line, e + 1, limit)
      case None => None
      case Some(more) => Some([line[p..e]] + more)
  {
  }
  lemma {:induction false} AfterSpace(line: string, sp: nat, lead: string, w: string, more: string)
    requires sp <= |line| && line[sp..] == lead + w + ([' '] + more)
    ensures sp + |lead| + |w| + 1 <= |line| && line[sp + |lead| + |w| + 1..] == more
  {
    Pieces(line, sp, lead + w, [' '], more);
  }

  /** A word followed by one space: the loop goes on after the space. */
  lemma {:induction false} ScanMore(line: string, sp: nat, limit: int, lead: string, w: string, more: string)
    requires sp <= |line| <= limit
    requires IsWord(w) && AllSpace(lead)
    requires line[sp..] == lead + w + ([' '] + more)
    ensures Scan(line, sp, limit) == match Scan(line, sp + |lead| + |w| + 1, limit)
           case None => None
           case Some(rest) => Some([w] + rest)
  {
    ScanStep(line, sp, lead, w, [' '] + more);
    ScanGoesOn(line, sp, limit, sp + |lead|, sp + |lead| + |w|);
  }

  /** The loop reads a column written as leading white space, words with one
      space between them, and a white-space tail: it gives the words when the
      tail is empty, or is a single character and the column ended at ',' or
      ");"; any other tail leaves a search that finds no token, and null. */
  lemma {:induction false} ScanWords(line: string, sp: nat, limit: int, lead: string, words: seq<string>, trail: string)
    requires sp <= |line| <= limit
    requires |words| > 0 && forall i :: 0 <= i < |words| ==> IsWord(words[i])
    requires AllSpace(lead) && AllSpace(trail)
    requires line[sp..] == lead + Join(words) + trail
    ensures Scan(line, sp, limit) == if |trail| == 0 || (|trail| == 1 && limit == |line|) then Some(words) else None
    decreases |words|
  {
    var w := words[0];
    var ok := |trail| == 0 || (|trail| == 1 && limit == |line|);
    if |words| == 1 {
      assert line[sp..] == lead + w + trail;
      ScanLast(line, sp, limit, lead, w, trail);
      assert words == [w];
    } else {
      var more := Join(words[1..]) + trail;
      assert line[sp..] == lead + w + ([' '] + more);
      var next := sp + |lead| + |w| + 1;
      AfterSpace(line, sp, lead, w, more);
      calc {
        Scan(line, sp, limit);
        { ScanMore(line, sp, limit, lead, w, more); }
        match Scan(line, next, limit) case None => None case Some(rest) => Some([w] + rest);
        { assert line[next..] == "" + Join(words[1..]) + trail;
          ScanWords(line, next, limit, "", words[1..], trail); }
        match (if ok then Some(words[1..]) else None) case None => None case Some(rest) => Some([w] + rest);
        { assert [w] + words[1..] == words; }
        if ok then Some(words) else None;
      }
    }
  }

  lemma {:induction false} SkipSpaceFacts(s: string, from: nat)
    requires from <= |s|
    ensures var r := SkipSpace(s, from);
      && (r < |s| ==> !IsSpace(s[r]))
      && forall j :: from <= j < r ==> IsSpace(s[j])
    decreases |s| - from
  {
    if from < |s| && IsSpace(s[from]) {
      SkipSpaceFacts(s, from + 1);
    }
  }

  lemma {:induction false} SkipWordFacts(s: string, from: nat)
    requires from <= |s|
    ensures var r := SkipWord(s, from);
      && (r < |s| ==> IsSpace(s[r]))
      && forall j :: from <= j < r ==> !IsSpace(s[j])
    decreases |s| - from
  {
    if from < |s| && !IsSpace(s[from]) {
      SkipWordFacts(s, from + 1);
    }
  }

  /** Every token the loop reads is a non-empty run without white space. */
  lemma {:induction false} ScanGivesWords(line: string, sp: nat, limit: int)
    requires sp <= |line| <= limit
    ensures var r := Scan(line, sp, limit);
      r.Some? ==> forall i :: 0 <= i < |r.value| ==> IsWord(r.value[i])
    decreases |line| - sp
  {
    if sp < limit {
      var p := SkipSpace(line, sp);
      SkipSpaceFacts(line, sp);
      if p < |line| {
        var e := SkipWord(line, p);
        SkipWordFacts(line, p);
        assert IsWord(line[p..e]);
        if e < |line| {
          ScanGivesWords(line, e + 1, limit);
        }
      }
    }
  }

  // ---------------------------------------------------------------------
  // One column
  // ---------------------------------------------------------------------

  predicate IsAttribute(word: string) {
    word == "NOT_NULL" || word == "PRIMARY_KEY" || word == "FOREIGN_KEY"
  }

  /** The third token sets its flag. */
  function WithAttribute(col: Column, word: string): Option<Column> {
    if word == "NOT_NULL" then Some(col.(isNullable := false))
    else if word == "PRIMARY_KEY" then Some(col.(isPrimaryKey := true))
    else if word == "FOREIGN_KEY" then Some(col.(isForeignKey := true))
    else None
  }

  /** The fifth token `table(column)`: the text before the first '(', and
      from after it a count of `close - open - 1` characters, where `close`
      is the first ')'. The count is a `size_t`: when ')' comes before '('
      it wraps around and the column runs to the end of the token. */
  function Reference(word: string): Option<(string, string)> {
    var open := FindChar(word, '(', 0);
    var close := FindChar(word, ')', 0);
    if open.None? || close.None? then None
    else Some((word[..open.value], Substr(word, open.value + 1, Wrap64(close.value - open.value - 1))))
  }

  /** A reference is read exactly when the token holds both parentheses. */
  lemma {:induction false} ReferenceFound(word: string)
    ensures Reference(word).Some? <==> '(' in word && ')' in word
  {
    FindCharFirst(word, '(', 0);
    FindCharFirst(word, ')', 0);
  }

  /** A fresh `ColumnInfo`. Its type is left unset by the source; every
      accepted column has a second token that sets it, so the placeholder
      here is never seen. */
  const Blank := Column("", INT, false, false, true, "", "")

  /** One round of the `switch (i)` on the token `word`: the name; a known
      type; an attribute; the word "References"; a reference. Any other
      token gives null; past the fifth nothing changes. */
  function Slot(i: nat, word: string, col: Column): Option<Column> {
    if i == 0 then Some(col.(name := word))
    else if i == 1 then
      (match TypeOf(word)
       case None => None
       case Some(t) => Some(col.(colType := t)))
    else if i == 2 then WithAttribute(col, word)
    else if i == 3 then (if word == "References" then Some(col) else None)
    else if i == 4 then
      (match Reference(word)
       case None => None
       case Some(ref) => Some(col.(refTable := ref.0, refColumn := ref.1)))
    else Some(col)
  }

  /** The `for` loop over the tokens from `i` on. */
  function ColumnLoop(info: seq<string>, i: nat, col: Column): Option<Column>
    requires i <= |info|
    decreases |info| - i
  {
    if i == |info| then Some(col)
    else match Slot(i, info[i], col)
      case None => None
      case Some(next) => ColumnLoop(info, i + 1, next)
  }

  /** The column of the tokens `info`: two, three or five of them, then
      the loop. */
  function ParseColumn(info: seq<string>): Option<Column> {
    if !(|info| == 2 || |info| == 3 || |info| == 5) then None
    else ColumnLoop(info, 0, Blank)
  }

  /** One round of the loop. */
  lemma {:induction false} LoopStep(info: seq<string>, i: nat, col: Column)
    requires i < |info|
    ensures ColumnLoop(info, i, col) == match Slot(i, info[i], col)
      case None => None
      case Some(next) => ColumnLoop(info, i + 1, next)
  {
  }

  /** What the column loop accepts, and the column it builds. */
  lemma {:induction false} ParseColumnOutcome(info: seq<string>)
    ensures ParseColumn(info).Some? <==>
      && (|info| == 2 || |info| == 3 || |info| == 5)
      && TypeOf(info[1]).Some?
      && (|info| >= 3 ==> IsAttribute(info[2]))
      && (|info| == 5 ==> info[3] == "References" && Reference(info[4]).Some?)
    ensures ParseColumn(info).Some? ==> var c := ParseColumn(info).value;
      && c.name == info[0] && TypeName(c.colType) == info[1]
      && (!c.isNullable <==> |info| >= 3 && info[2] == "NOT_NULL")
      && (c.isPrimaryKey <==> |info| >= 3 && info[2] == "PRIMARY_KEY")
      && (c.isForeignKey <==> |info| >= 3 && info[2] == "FOREIGN_KEY")
      && if |info| == 5 then Reference(info[4]) == Some((c.refTable, c.refColumn))
         else c.refTable == "" && c.refColumn == ""
  {
    if |info| == 2 || |info| == 3 || |info| == 5 {
      var c0 := Blank.(name := info[0]);
      LoopStep(info, 0, Blank);
      LoopStep(info, 1, c0);
      match TypeOf(info[1])
      case None =>
      case Some(ty) =>
        var c1 := c0.(colType := ty);
        if |info| > 2 {
          LoopStep(info, 2, c1);
          match WithAttribute(c1, info[2])
          case None =>
          case Some(c2) =>
            if |info| == 5 {
              LoopStep(info, 3, c2);
              LoopStep(info, 4, c2);
            }
        }
    }
  }

  /** A reference written in order, `table(column)` and anything after,
      reads back as that table and column. */
  lemma {:induction false} ReferenceInOrder(table: string, column: string, after: string)
    requires '(' !in table && ')' !in table && ')' !in column
    requires |table| + |column| + |after| < NPOS
    ensures Reference(table + "(" + column + ")" + after) == Some((table, column))
  {
    var word := table + "(" + column + ")" + after;
    var open := |table|;
    var close := |table| + 1 + |column|;
    assert word[open] == '(' && word[close] == ')';
    forall j | 0 <= j < close
      ensures word[j] != ')' && (j < open ==> word[j] != '(')
    {
      if j < open {
        assert word[j] == table[j];
      } else if j > open {
        assert word[j] == column[j - open - 1];
      }
    }
    FindCharIs(word, '(', 0, open);
    FindCharIs(word, ')', 0, close);
    assert word[..open] == table;
    assert word[open + 1..close] == column;
  }

  /** When the first ')' comes before the first '(', the wrapped count
      makes the column everything after '('. */
  lemma {:induction false} ReferenceReversed(word: string, open: nat, close: nat)
    requires close < open < |word| < NPOS
    requires FindChar(word, '(', 0) == Some(open) && FindChar(word, ')', 0) == Some(close)
    ensures Reference(word) == Some((word[..open], word[open + 1..]))
  {
    var count := Wrap64(close - open - 1);
    assert count == TWO_TO_THE_64 + close - open - 1;
    assert Substr(word, open + 1, count) == word[open + 1..];
  }

  // ---------------------------------------------------------------------
  // Writing a column back
  // ---------------------------------------------------------------------

  /** Text the column split and the token loop carry unchanged: no white
      space and none of ',' ';' '(' ')'. */
  predicate Bare(s: string) {
    forall i :: 0 <= i < |s| ==> !IsSpace(s[i]) && s[i] != ',' && s[i] != ';' && s[i] != '(' && s[i] != ')'
  }

  predicate Plain(s: string) {
    |s| > 0 && Bare(s)
  }

  function AttributeWords(c: Column): seq<string> {
    if !c.isNullable then ["NOT_NULL"]
    else if c.isPrimaryKey then ["PRIMARY_KEY"]
    else if c.isForeignKey then ["FOREIGN_KEY"]
    else []
  }

  /** The tokens a column definition is written with. */
  function ColumnWords(c: Column): seq<string> {
    [c.name, TypeName(c.colType)] + AttributeWords(c)
      + if c.refTable == "" then [] else ["References", c.refTable + "(" + c.refColumn + ")"]
  }

  /** A column the grammar can express: a plain name, at most one of the
      three attributes, and a reference (to a plain table) only after one
      of them. */
  predicate Writable(c: Column) {
    && Plain(c.name)
    && (!c.isNullable ==> !c.isPrimaryKey && !c.isForeignKey)
    && !(c.isPrimaryKey && c.isForeignKey)
    && (c.refTable == "" ==> c.refColumn == "")
    && (c.refTable != "" ==> |AttributeWords(c)| == 1 && Plain(c.refTable) && Bare(c.refColumn))
  }

  /** Every token of a writable column is a word without ',' or ';'. */
  predicate Tokenless(words: seq<string>) {
    forall i :: 0 <= i < |words| ==> IsWord(words[i]) && ',' !in words[i] && ';' !in words[i]
  }

  lemma {:induction false} TokenlessJoin(a: seq<string>, b: seq<string>)
    requires Tokenless(a) && Tokenless(b)
    ensures Tokenless(a + b)
  {
    assert forall i :: 0 <= i < |a + b| ==> (a + b)[i] == if i < |a| then a[i] else b[i - |a|];
  }

  /** A keyword of the grammar: capital letters and '_'. */
  lemma {:induction false} KeywordTokenless(w: string)
    requires |w| > 0 && forall i :: 0 <= i < |w| ==> 'A' <= w[i] <= 'Z' || w[i] == '_'
    ensures Tokenless([w])
  {
  }

  lemma {:induction false} LiteralTokenless(c: Column)
    ensures Tokenless([TypeName(c.colType)] + AttributeWords(c))
  {
    KeywordTokenless(TypeName(c.colType));
    if |AttributeWords(c)| > 0 {
      KeywordTokenless(AttributeWords(c)[0]);
      assert AttributeWords(c) == [AttributeWords(c)[0]];
    }
    TokenlessJoin([TypeName(c.colType)], AttributeWords(c));
  }

  lemma {:induction false} ReferenceTokenless(table: string, column: string)
    requires Plain(table) && Bare(column)
    ensures Tokenless(["References", table + "(" + column + ")"])
  {
    var ref := table + "(" + column + ")";
    forall i | 0 <= i < |ref|
      ensures !IsSpace(ref[i]) && ref[i] != ',' && ref[i] != ';'
    {
      if i < |table| {
        assert ref[i] == table[i];
      } else if |table| < i < |table| + 1 + |column| {
        assert ref[i] == column[i - |table| - 1];
      }
    }
  }

  lemma {:induction false} ColumnWordsTokenless(c: Column)
    requires Writable(c)
    ensures Tokenless(ColumnWords(c)) && |ColumnWords(c)| >= 2
  {
    var refs: seq<string> := if c.refTable == "" then [] else ["References", c.refTable + "(" + c.refColumn + ")"];
    if c.refTable != "" {
      ReferenceTokenless(c.refTable, c.refColumn);
    }
    LiteralTokenless(c);
    TokenlessJoin([c.name], [TypeName(c.colType)] + AttributeWords(c));
    TokenlessJoin([c.name] + ([TypeName(c.colType)] + AttributeWords(c)), refs);
    assert ColumnWords(c) == [c.name] + ([TypeName(c.colType)] + AttributeWords(c)) + refs;
  }

  /** A writable column's tokens parse back to it. */
  lemma {:induction false} ColumnRoundTrip(c: Column)
    requires Writable(c) && |c.refTable| + |c.refColumn| < NPOS
    ensures ParseColumn(ColumnWords(c)) == Some(c)
  {
    var ws := ColumnWords(c);
    TypeNames(TypeName(c.colType), c.colType);
    ParseColumnOutcome(ws);
    if c.refTable != "" {
      ReferenceInOrder(c.refTable, c.refColumn, "");
      assert c.refTable + "(" + c.refColumn + ")" + "" == c.refTable + "(" + c.refColumn + ")";
      assert ws[3] == "References";
    }
  }

  // ---------------------------------------------------------------------
  // The table
  // ---------------------------------------------------------------------

  /** One column's text through the token loop and the column grammar. */
  function ColumnOf(line: string, limit: int): Option<Column>
    requires |line| <= limit
  {
    match Scan(line, 0, limit)
    case None => None
    case Some(info) => ParseColumn(info)
  }

  /** One column's text and the bound of its token loop. */
  datatype Piece = Piece(text: string, limit: int)

  predicate Fits(p: Piece) {
    |p.text| <= p.limit
  }

  /** The loop over column texts from `start` (just past '(' or past the
      previous ','): a text ends at the next ','; the last one ends at the
      first ");", or, when there is none, runs to the end of the input with
      the token loop bounded by `npos - start`. `input` begins `base`
      characters into the command, so `start` there is `base + start` in
      the command. */
  function Split(input: string, start: nat, base: nat): (r: seq<Piece>)
    requires start <= |input| && base + |input| <= NPOS
    ensures |r| > 0 && forall i :: 0 <= i < |r| ==> Fits(r[i])
    decreases |input| - start
  {
    match FindChar(input, ',', start)
    case Some(comma) => [Piece(input[start..comma], comma - start)] + Split(input, comma + 1, base)
    case None =>
      match FindFrom(input, ");", start)
      case Some(end) => [Piece(input[start..end], end - start)]
      case None => [Piece(input[start..], NPOS - base - start)]
  }

  /** Every piece through the column parser, in order; any bad one makes
      the whole command null. */
  function ParsePieces(pieces: seq<Piece>): (r: Option<seq<Column>>)
    requires forall i :: 0 <= i < |pieces| ==> Fits(pieces[i])
    ensures r.Some? ==> |r.value| == |pieces|
  {
    if |pieces| == 0 then Some([])
    else
      assert Fits(pieces[0]);
      match ColumnOf(pieces[0].text, pieces[0].limit)
      case None => None
      case Some(c) =>
        match ParsePieces(pieces[1..])
        case None => None
        case Some(more) => Some([c] + more)
  }

  /** The columns of the command, from `start`. */
  function Columns(input: string, start: nat, base: nat): (r: Option<seq<Column>>)
    requires start <= |input| && base + |input| <= NPOS
    ensures r.Some? ==> |r.value| > 0
  {
    ParsePieces(Split(input, start, base))
  }

  /** The table name: from after "TABLE " to one character before '(', so
      that the space written before '(' is left out; empty when '(' follows
      "TABLE " directly. */
  function TableName(input: string, nameStart: nat, paren: nat): (r: string)
    requires nameStart <= paren <= |input|
    ensures |r| == if paren == nameStart then 0 else paren - nameStart - 1
    ensures r == input[nameStart..nameStart + |r|]
  {
    if paren == nameStart then "" else input[nameStart..paren - 1]
  }

  /** The name as the source computes it: `substr` with the count
      `paren - nameStart - 1` in `size_t`, which wraps when '(' follows
      "TABLE " directly. */
  function TableNameAsWritten(input: string, nameStart: nat, paren: nat): (r: string)
    requires nameStart <= paren <= |input| <= NPOS
  {
    Substr(input, nameStart, Wrap64(paren - nameStart - 1))
  }

  /** Whenever a character stands between "TABLE " and '(', the source's
      name is the modelled one. */
  lemma {:induction false} TableNameAgrees(input: string, nameStart: nat, paren: nat)
    requires nameStart < paren <= |input| <= NPOS
    ensures TableNameAsWritten(input, nameStart, paren) == TableName(input, nameStart, paren)
  {
  }

  /** With '(' straight after "TABLE " the count wraps to 2^64 - 1 and the
      source's name runs to the end of the input, '(' and the columns
      included ("CREATE TABLE (id INT);" is named "(id INT);"). */
  lemma {:induction false} NameSwallowsColumns(input: string, nameStart: nat)
    requires nameStart < |input| <= NPOS && input[nameStart] == '('
    ensures TableNameAsWritten(input, nameStart, nameStart) == input[nameStart..]
    ensures '(' in TableNameAsWritten(input, nameStart, nameStart)
    ensures TableName(input, nameStart, nameStart) == ""
  {
    assert input[nameStart..][0] == '(';
  }

  /** `parseCreateTable`. Its first search starts at index 7 and nothing
      before that index is read, so the work is done on the text from there
      on; a shorter input has no "TABLE " to find. */
  function ParseCreateTable(input: string): (r: Option<Table>)
    requires |input| <= NPOS
    ensures r.Some? ==> |r.value.columns| > 0
  {
    if |input| < 7 then None else CreateTableFrom(input[7..], 7)
  }

  /** The table command from `base` on, with positions counted from there:
      "TABLE " (case-sensitive), then '(' after it, then the columns. */
  function CreateTableFrom(body: string, base: nat): (r: Option<Table>)
    requires base + |body| <= NPOS
    ensures r.Some? ==> |r.value.columns| > 0
  {
    match FindFrom(body, "TABLE ", 0)
    case None => None
    case Some(t) => TableAfterKeyword(body, base, t + 6)
  }

  /** The rest of the table command once "TABLE " ends at `nameStart`. */
  function TableAfterKeyword(body: string, base: nat, nameStart: nat): (r: Option<Table>)
    requires base + |body| <= NPOS
    ensures r.Some? ==> |r.value.columns| > 0
  {
    match FindChar(body, '(', nameStart)
    case None => None
    case Some(paren) => TableWith(TableName(body, nameStart, paren), Columns(body, paren + 1, base))
  }

  /** A table of that name once its columns are read; null when they are not. */
  function TableWith(name: string, columns: Option<seq<Column>>): (r: Option<Table>)
    requires columns.Some? ==> |columns.value| > 0
    ensures r.Some? <==> columns.Some?
    ensures r.Some? ==> r.value.tableName == name && r.value.columns == columns.value
  {
    match columns
    case None => None
    case Some(cols) => Some(Table(name, cols))
  }

  /** The name never holds '(': it stops before the first one. */
  lemma {:induction false} NameBeforeParen(input: string)
    requires |input| <= NPOS
    ensures ParseCreateTable(input).Some? ==> '(' !in ParseCreateTable(input).value.tableName
  {
    if |input| >= 7 {
      var body := input[7..];
      match FindFrom(body, "TABLE ", 0)
      case None =>
      case Some(t) =>
        FindCharFirst(body, '(', t + 6);
        match FindChar(body, '(', t + 6)
        case None =>
        case Some(paren) =>
          var name := TableName(body, t + 6, paren);
          assert forall i :: 0 <= i < |name| ==> name[i] == body[t + 6 + i] != '(';
    }
  }

  /** The command word: the text before the first ' ' (a tab does not end
      it). */
  function FirstWord(s: string): string {
    s[..IndexOf(s, ' ')]
  }

  /** `Parser::parse`: leading white space dropped, a six-character command
      word matched without regard to case; CREATE goes on to the table
      parser, the other four keywords to parsers that are still empty. */
  function Parse(input: string): Parsed
    requires |input| <= NPOS
  {
    Dispatch(TrimLeft(input))
  }

  /** The choice made on the command word of the trimmed input. */
  function Dispatch(trimmed: string): Parsed
    requires |trimmed| <= NPOS
  {
    var word := FirstWord(trimmed);
    if |word| != 6 then Null
    else
      var command := Command(Upper(word));
      if command.None? then Null
      else if command.value == CREATE_TABLE then
        match ParseCreateTable(trimmed)
        case None => Null
        case Some(table) => Created(table)
      else Unfinished(command.value)
  }

  /** What `parse` gives: null unless the first word of the trimmed input
      has six characters and is a keyword in some case; one of the four
      unfinished commands exactly when the keyword is not CREATE; a table
      only from the table parser. */
  lemma {:induction false} ParseOutcome(input: string)
    requires |input| <= NPOS
    ensures var r := Parse(input); var w := FirstWord(TrimLeft(input));
      && (|w| != 6 || Command(Upper(w)).None? ==> r.Null?)
      && (r.Unfinished? <==> |w| == 6 && Command(Upper(w)).Some? && Command(Upper(w)).value != CREATE_TABLE)
      && (r.Unfinished? ==> CommandName(r.command) == Upper(w))
      && (r.Created? ==> Upper(w) == "CREATE" && ParseCreateTable(TrimLeft(input)) == Some(r.table))
      && (Upper(w) == "CREATE" ==> r == match ParseCreateTable(TrimLeft(input)) case None => Null case Some(t) => Created(t))
  {
  }

  // ---------------------------------------------------------------------
  // Writing a table back
  // ---------------------------------------------------------------------

  function ColumnText(c: Column): string {
    Join(ColumnWords(c))
  }

  /** Column definitions separated by ", ". */
  function JoinColumns(cols: seq<Column>): string
    decreases |cols|
  {
    if |cols| == 0 then ""
    else if |cols| == 1 then ColumnText(cols[0])
    else ColumnText(cols[0]) + ", " + JoinColumns(cols[1..])
  }

  /** A `CREATE TABLE` command as the test writes it. */
  function Render(t: Table): string {
    "CREATE " + TableText(t)
  }

  /** What follows the command word and its space. */
  function TableText(t: Table): string {
    "TABLE " + t.tableName + " (" + JoinColumns(t.columns) + ");"
  }

  /** A table the command can express: no '(' in the name, at least one
      column, every column writable. */
  predicate WritableTable(t: Table) {
    && '(' !in t.tableName
    && |t.columns| > 0
    && forall i :: 0 <= i < |t.columns| ==> Writable(t.columns[i])
  }

  /** Joined tokens keep the tokens' characters, the first one first. */
  lemma {:induction false} JoinKeeps(words: seq<string>)
    requires |words| > 0 && Tokenless(words)
    ensures var j := Join(words); |j| > 0 && j[0] == words[0][0] && ',' !in j && ';' !in j
    decreases |words|
  {
    if |words| > 1 {
      JoinKeeps(words[1..]);
      var j := Join(words);
      var rest := Join(words[1..]);
      assert j == words[0] + ([' '] + rest);
      forall i | 0 <= i < |j|
        ensures j[i] != ',' && j[i] != ';'
      {
        if i < |words[0]| {
          assert j[i] == words[0][i];
        } else if i > |words[0]| {
          assert j[i] == rest[i - |words[0]| - 1];
        }
      }
    }
  }

  lemma {:induction false} FirstComma(input: string, start: nat, text: string, rest: string)
    requires start <= |input| && input[start..] == text + "," + rest && ',' !in text
    ensures FindChar(input, ',', start) == Some(start + |text|)
    ensures input[start..start + |text|] == text && input[start + |text| + 1..] == rest
  {
    Pieces(input, start, text, ",", rest);
    assert input[start + |text|] == ',';
    forall j | start <= j < start + |text|
      ensures input[j] != ','
    {
      assert input[j] == text[j - start];
    }
    FindCharIs(input, ',', start, start + |text|);
  }

  lemma {:induction false} FirstClose(input: string, start: nat, text: string)
    requires start <= |input| && input[start..] == text + ");" && ',' !in text && ';' !in text
    ensures FindChar(input, ',', start).None?
    ensures FindFrom(input, ");", start) == Some(start + |text|)
    ensures input[start..start + |text|] == text
  {
    Pieces(input, start, text, ");", "");
    var k := start + |text|;
    assert input[k] == ')' && input[k + 1] == ';' && |input| == k + 2;
    assert At(input, ");", k);
    forall j | start <= j < |input|
      ensures input[j] != ','
    {
      if j < k {
        assert input[j] == text[j - start];
      }
    }
    forall j: nat | start <= j < k
      ensures !At(input, ");", j)
    {
      if j + 1 < k {
        assert input[j + 1] == text[j + 1 - start];
      }
      assert input[j..j + 2][1] == input[j + 1];
    }
    FindCharIs(input, ',', start, |input|);
    FindFromIs(input, ");", start, k);
  }

  /** One column written with a white-space lead and ended at ',' or ");". */
  lemma {:induction false} ColumnLine(line: string, lead: string, c: Column)
    requires AllSpace(lead) && Writable(c) && line == lead + ColumnText(c) && |line| < NPOS
    ensures ColumnOf(line, |line|) == Some(c)
  {
    ColumnWordsTokenless(c);
    assert line[0..] == lead + Join(ColumnWords(c)) + "";
    ScanWords(line, 0, |line|, lead, ColumnWords(c), "");
    assert |ColumnText(c)| >= |c.refTable| + |c.refColumn| by {
      ColumnTextHolds(c);
    }
    ColumnRoundTrip(c);
  }

  lemma {:induction false} ColumnTextHolds(c: Column)
    requires c.refTable == "" ==> c.refColumn == ""
    ensures |ColumnText(c)| >= |c.refTable| + |c.refColumn|
  {
    var ws := ColumnWords(c);
    if c.refTable != "" {
      assert ws[|ws| - 1] == c.refTable + "(" + c.refColumn + ")";
      JoinLength(ws, |ws| - 1);
      assert |ws[|ws| - 1]| == |c.refTable| + |c.refColumn| + 2;
    }
  }

  /** Each token fits in the joined text. */
  lemma {:induction false} JoinLength(words: seq<string>, i: nat)
    requires i < |words|
    ensures |Join(words)| >= |words[i]|
    decreases |words|
  {
    if |words| > 1 && i > 0 {
      JoinLength(words[1..], i - 1);
    }
  }

  /** A writable column's text holds neither separator. */
  lemma {:induction false} NoSeparators(lead: string, c: Column)
    requires (lead == "" || lead == " ") && Writable(c)
    ensures ',' !in lead + ColumnText(c) && ';' !in lead + ColumnText(c)
  {
    ColumnWordsTokenless(c);
    JoinKeeps(ColumnWords(c));
  }

  /** Texts written with ',' between them. */
  function Commas(texts: seq<string>): string
    requires |texts| > 0
    decreases |texts|
  {
    if |texts| == 1 then texts[0] else texts[0] + "," + Commas(texts[1..])
  }

  /** No text holds ',' or ';'. */
  predicate Separated(texts: seq<string>)
    decreases |texts|
  {
    |texts| == 0 || (',' !in texts[0] && ';' !in texts[0] && Separated(texts[1..]))
  }


  /** Each text as a piece bounded by its own length. */
  function PiecesOf(texts: seq<string>): (r: seq<Piece>)
    ensures |r| == |texts| && forall i :: 0 <= i < |r| ==> r[i].text == texts[i] && Fits(r[i])
  {
    seq(|texts|, i requires 0 <= i < |texts| => Piece(texts[i], |texts[i]|))
  }

  lemma {:induction false} SplitComma(input: string, start: nat, base: nat, text: string, rest: string, next: nat)
    requires start <= |input| && base + |input| <= NPOS
    requires input[start..] == text + "," + rest && ',' !in text
    requires next == start + |text| + 1
    ensures next <= |input| && input[next..] == rest
    ensures Split(input, start, base) == [Piece(text, |text|)] + Split(input, next, base)
  {
    FirstComma(input, start, text, rest);
  }

  lemma {:induction false} SplitClose(input: string, start: nat, base: nat, text: string)
    requires start <= |input| && base + |input| <= NPOS
    requires input[start..] == text + ");" && ',' !in text && ';' !in text
    ensures Split(input, start, base) == [Piece(text, |text|)]
  {
    FirstClose(input, start, text);
  }

  lemma {:induction false} PiecesCons(texts: seq<string>)
    requires |texts| > 0
    ensures PiecesOf(texts) == [Piece(texts[0], |texts[0]|)] + PiecesOf(texts[1..])
  {
    var r := [Piece(texts[0], |texts[0]|)] + PiecesOf(texts[1..]);
    forall i | 0 <= i < |texts|
      ensures PiecesOf(texts)[i] == r[i]
    {
      if i > 0 {
        assert r[i] == PiecesOf(texts[1..])[i - 1];
      }
    }
  }

  /** Texts without separators, written with ',' between them and ");" at
      the end, split back into those texts. */
  lemma {:induction false} SplitCommas(input: string, start: nat, base: nat, texts: seq<string>)
    requires start <= |input| && base + |input| <= NPOS
    requires |texts| > 0 && Separated(texts)
    requires input[start..] == Commas(texts) + ");"
    ensures Split(input, start, base) == PiecesOf(texts)
    decreases |texts|
  {
    var t := texts[0];
    if |texts| == 1 {
      calc {
        Split(input, start, base);
        { SplitClose(input, start, base, t); }
        [Piece(t, |t|)];
        { assert PiecesOf(texts[1..]) == []; }
        [Piece(t, |t|)] + PiecesOf(texts[1..]);
        { PiecesCons(texts); }
        PiecesOf(texts);
      }
    } else {
      var next := start + |t| + 1;
      CommasRest(input, start, texts);
      CommasNext(input, start, base, texts, next);
      calc {
        Split(input, start, base);
        [Piece(t, |t|)] + Split(input, next, base);
        { SplitCommas(input, next, base, texts[1..]); }
        [Piece(t, |t|)] + PiecesOf(texts[1..]);
        { PiecesCons(texts); }
        PiecesOf(texts);
      }
    }
  }


  /** The first of several texts: the split goes on after its ','. */
  lemma {:induction false} CommasNext(input: string, start: nat, base: nat, texts: seq<string>, next: nat)
    requires start <= |input| && base + |input| <= NPOS
    requires |texts| > 1 && ',' !in texts[0]
    requires input[start..] == Commas(texts) + ");"
    requires next == start + |texts[0]| + 1
    ensures next <= |input|
    ensures Split(input, start, base) == [Piece(texts[0], |texts[0]|)] + Split(input, next, base)
  {
    var t := texts[0];
    var more := texts[1..];
    var rest := Commas(more) + ");";
    assert input[start..] == t + "," + rest by {
      assert Commas(texts) == t + "," + Commas(more);
    }
    SplitComma(input, start, base, t, rest, next);
  }

  lemma {:induction false} CommasRest(input: string, start: nat, texts: seq<string>)
    requires start <= |input|
    requires |texts| > 1
    requires input[start..] == Commas(texts) + ");"
    ensures start + |texts[0]| + 1 <= |input|
    ensures input[start + |texts[0]| + 1..] == Commas(texts[1..]) + ");"
  {
    var t := texts[0];
    var rest := Commas(texts[1..]) + ");";
    assert input[start..] == t + "," + rest by {
      assert Commas(texts) == t + "," + Commas(texts[1..]);
    }
    Pieces(input, start, t, ",", rest);
  }




  /** The texts of columns written with ", " between them, the first one
      after `lead`. */
  function Texts(lead: string, cols: seq<Column>): (r: seq<string>)
    ensures |r| == |cols|
    decreases |cols|
  {
    if |cols| == 0 then [] else [lead + ColumnText(cols[0])] + Texts(" ", cols[1..])
  }

  lemma {:induction false} TextsJoin(lead: string, cols: seq<Column>)
    requires lead == "" || lead == " "
    requires |cols| > 0 && forall i :: 0 <= i < |cols| ==> Writable(cols[i])
    ensures lead + JoinColumns(cols) == Commas(Texts(lead, cols))
    ensures Separated(Texts(lead, cols))
    decreases |cols|
  {
    var ts := Texts(lead, cols);
    NoSeparators(lead, cols[0]);
    if |cols| > 1 {
      TextsJoin(" ", cols[1..]);
      assert ts[1..] == Texts(" ", cols[1..]);
      assert lead + JoinColumns(cols) == (lead + ColumnText(cols[0])) + "," + (" " + JoinColumns(cols[1..]));
    }
  }

  lemma {:induction false} TextsParse(lead: string, cols: seq<Column>)
    requires lead == "" || lead == " "
    requires forall i :: 0 <= i < |cols| ==> Writable(cols[i])
    requires forall i :: 0 <= i < |cols| ==> |ColumnText(cols[i])| < NPOS - 1
    ensures ParsePieces(PiecesOf(Texts(lead, cols))) == Some(cols)
    decreases |cols|
  {
    if |cols| > 0 {
      var ts := Texts(lead, cols);
      var ps := PiecesOf(ts);
      TextsParse(" ", cols[1..]);
      assert ps[1..] == PiecesOf(Texts(" ", cols[1..]));
      ColumnLine(ts[0], lead, cols[0]);
      assert [cols[0]] + cols[1..] == cols;
    }
  }

  /** The column loop reads back columns written with ", " between them and
      ");" at the end. */
  lemma {:induction false} ColumnsRead(input: string, start: nat, base: nat, lead: string, cols: seq<Column>)
    requires start <= |input| && base + |input| <= NPOS
    requires lead == "" || lead == " "
    requires |cols| > 0 && forall i :: 0 <= i < |cols| ==> Writable(cols[i])
    requires input[start..] == lead + JoinColumns(cols) + ");"
    ensures Columns(input, start, base) == Some(cols)
  {
    TextsJoin(lead, cols);
    SplitCommas(input, start, base, Texts(lead, cols));
    forall i | 0 <= i < |cols|
      ensures |ColumnText(cols[i])| < NPOS - 1
    {
      JoinColumnsHolds(cols, i);
    }
    TextsParse(lead, cols);
  }

  lemma {:induction false} JoinColumnsHolds(cols: seq<Column>, i: nat)
    requires i < |cols|
    ensures |JoinColumns(cols)| >= |ColumnText(cols[i])|
    decreases |cols|
  {
    if |cols| > 1 && i > 0 {
      JoinColumnsHolds(cols[1..], i - 1);
    }
  }

  /** Where the parts of a rendered command sit after "CREATE ". */
  lemma {:induction false} RenderAt(t: Table)
    requires '(' !in t.tableName
    ensures var s := TableText(t); var n := |t.tableName|;
      && |s| == 10 + n + |JoinColumns(t.columns)|
      && s[..6] == "TABLE " && s[6..6 + n] == t.tableName
      && s[6 + n] == ' ' && s[7 + n] == '('
      && s[8 + n..] == JoinColumns(t.columns) + ");"
      && (forall j :: 6 <= j < 7 + n ==> s[j] != '(')
  {
    var s := TableText(t);
    var n := |t.tableName|;
    assert s == "TABLE " + t.tableName + " (" + (JoinColumns(t.columns) + ");");
    forall j | 6 <= j < 6 + n
      ensures s[j] != '('
    {
      assert s[j] == t.tableName[j - 6];
    }
  }

  /** The table command once "TABLE " is found goes on after it. */
  lemma {:induction false} CreateTableFromKeyword(body: string, base: nat, t: nat)
    requires base + |body| <= NPOS
    requires FindFrom(body, "TABLE ", 0) == Some(t)
    ensures CreateTableFrom(body, base) == TableAfterKeyword(body, base, t + 6)
  {
  }

  /** The table command once '(' and the columns are read. */
  lemma {:induction false} TableAfterKeywordAt(body: string, base: nat, nameStart: nat, paren: nat)
    requires base + |body| <= NPOS
    requires FindChar(body, '(', nameStart) == Some(paren)
    ensures TableAfterKeyword(body, base, nameStart) == TableWith(TableName(body, nameStart, paren), Columns(body, paren + 1, base))
  {
  }

  /** The table parser reads a rendered command back. */
  lemma {:induction false} CreateTableRead(t: Table)
    requires WritableTable(t) && |Render(t)| <= NPOS
    ensures ParseCreateTable(Render(t)) == Some(t)
  {
    assert Render(t)[7..] == TableText(t);
    TableTextRead(t);
  }

  /** The text after "CREATE " is read back from its "TABLE " on. */
  lemma {:induction false} TableTextRead(t: Table)
    requires WritableTable(t) && 7 + |TableText(t)| <= NPOS
    ensures CreateTableFrom(TableText(t), 7) == Some(t)
  {
    var s := TableText(t);
    var n := |t.tableName|;
    RenderAt(t);
    assert At(s, "TABLE ", 0);
    assert FindFrom(s, "TABLE ", 0) == Some(0);
    CreateTableFromKeyword(s, 7, 0);
    FindCharIs(s, '(', 6, 7 + n);
    TableAfterKeywordAt(s, 7, 6, 7 + n);
    ColumnsAfterParen(t);
    assert TableName(s, 6, 7 + n) == t.tableName;
  }

  /** The columns after the '(' of a rendered command are its columns. */
  lemma {:induction false} ColumnsAfterParen(t: Table)
    requires WritableTable(t) && 7 + |TableText(t)| <= NPOS
    ensures 8 + |t.tableName| <= |TableText(t)|
    ensures Columns(TableText(t), 8 + |t.tableName|, 7) == Some(t.columns)
  {
    var s := TableText(t);
    RenderAt(t);
    assert "" + JoinColumns(t.columns) + ");" == JoinColumns(t.columns) + ");";
    ColumnsRead(s, 8 + |t.tableName|, 7, "", t.columns);
  }

  /** Text without lower-case letters is its own upper case. */
  lemma {:induction false} UpperKeeps(s: string)
    requires forall i :: 0 <= i < |s| ==> !('a' <= s[i] <= 'z')
    ensures Upper(s) == s
  {
  }

  /** A command whose first word is CREATE goes to the table parser. */
  lemma {:induction false} DispatchCreate(rest: string)
    requires 7 + |rest| <= NPOS
    ensures Dispatch("CREATE " + rest) == match ParseCreateTable("CREATE " + rest)
      case None => Null
      case Some(t) => Created(t)
  {
    var s := "CREATE " + rest;
    assert s == "CREATE" + [' '] + rest;
    IndexAfter("CREATE", ' ', rest);
    assert FirstWord(s) == "CREATE";
    UpperKeeps("CREATE");
  }

  /** White space, then "CREATE ": the table parser gets the rest. */
  lemma {:induction false} CreateAfterSpace(lead: string, rest: string)
    requires AllSpace(lead) && |lead| + 7 + |rest| <= NPOS
    ensures Parse(lead + ("CREATE " + rest)) == match ParseCreateTable("CREATE " + rest)
      case None => Null
      case Some(t) => Created(t)
  {
    var s := "CREATE " + rest;
    TrimLeftOf(lead, s);
    DispatchCreate(rest);
  }

  /** `parse` reads back a rendered command after any white space. */
  lemma {:induction false} RenderRoundTrip(t: Table, lead: string)
    requires WritableTable(t) && AllSpace(lead) && |lead + Render(t)| <= NPOS
    ensures Parse(lead + Render(t)) == Created(t)
  {
    var rest := TableText(t);
    CreateAfterSpace(lead, rest);
    CreateTableRead(t);
  }

  /** The table the repository's parser test describes. */
  function TestTable(): Table {
    Table("NAME", [
      Column("UserID", INT, true, false, true, "", ""),
      Column("Username", STRING, false, false, false, "", ""),
      Column("Email", STRING, false, false, true, "", ""),
      Column("ProfileID", INT, false, true, true, "Profiles", "ID")])
  }

  /** Tokens of bounded length join to a bounded text. */
  lemma {:induction false} JoinBound(words: seq<string>, k: nat)
    requires forall i :: 0 <= i < |words| ==> |words[i]| <= k
    ensures |Join(words)| <= |words| * (k + 1)
    decreases |words|
  {
    if |words| > 1 {
      JoinBound(words[1..], k);
      assert |Join(words)| == |words[0]| + 1 + |Join(words[1..])|;
      assert (|words| - 1) * (k + 1) + (k + 1) == |words| * (k + 1);
    }
  }

  lemma {:induction false} ColumnTextBound(c: Column)
    ensures |ColumnText(c)| <= 5 * (|c.name| + |c.refTable| + |c.refColumn| + 13)
  {
    var ws := ColumnWords(c);
    var k := |c.name| + |c.refTable| + |c.refColumn| + 12;
    assert |ws| <= 5;
    forall i | 0 <= i < |ws|
      ensures |ws[i]| <= k
    {
    }
    JoinBound(ws, k);
    assert |ws| * (k + 1) <= 5 * (k + 1);
  }

  lemma {:induction false} JoinColumnsBound(cols: seq<Column>, k: nat)
    requires forall i :: 0 <= i < |cols| ==> |ColumnText(cols[i])| <= k
    ensures |JoinColumns(cols)| <= |cols| * (k + 2)
    decreases |cols|
  {
    if |cols| > 1 {
      JoinColumnsBound(cols[1..], k);
      assert (|cols| - 1) * (k + 2) + (k + 2) == |cols| * (k + 2);
    }
  }

  lemma {:induction false} TestColumnsWritable()
    ensures forall i :: 0 <= i < |TestTable().columns| ==> Writable(TestTable().columns[i])
  {
    var cs := TestTable().columns;
    assert Writable(cs[0]) by {
      assert Plain("UserID");
    }
    assert Writable(cs[1]) by {
      assert Plain("Username");
    }
    assert Writable(cs[2]) by {
      assert Plain("Email");
    }
    assert Writable(cs[3]) by {
      assert Plain("ProfileID") && Plain("Profiles") && Bare("ID");
    }
  }

  lemma {:induction false} TestLength()
    ensures |Render(TestTable())| <= 1000
  {
    var cs := TestTable().columns;
    forall i | 0 <= i < |cs|
      ensures |ColumnText(cs[i])| <= 160
    {
      ColumnTextBound(cs[i]);
    }
    JoinColumnsBound(cs, 160);
  }

  /** The command of the repository's parser test: tabs and newlines, then
      the table NAME with four columns, one of them a foreign key with a
      reference, written as `Render` writes it. */
  lemma {:induction false} ParserTestCommand()
    ensures |Render(TestTable())| <= 1000
    ensures Parse("\t\n\t\n" + Render(TestTable())) == Created(TestTable())
  {
    TestColumnsWritable();
    TestLength();
    assert AllSpace("\t\n\t\n");
    RenderRoundTrip(TestTable(), "\t\n\t\n");
  }

  // ---------------------------------------------------------------------
  // The command word is read without regard to case
  // ---------------------------------------------------------------------

  /** The table parser never looks at the first seven characters. */
  lemma {:induction false} CreateTableAgree(s1: string, s2: string)
    requires |s1| == |s2| <= NPOS && (|s1| >= 7 ==> s1[7..] == s2[7..])
    ensures ParseCreateTable(s1) == ParseCreateTable(s2)
  {
  }

  /** Where a six-letter command word ends. */
  lemma {:induction false} WordFirst(a: string, rest: string)
    requires |a| == 6 && (forall i :: 0 <= i < 6 ==> IsLetter(a[i]))
    requires rest == [] || rest[0] == ' '
    ensures TrimLeft(a + rest) == a + rest && FirstWord(a + rest) == a
  {
    TrimLeftOf([], a + rest);
    assert [] + (a + rest) == a + rest;
    assert ' ' !in a;
    if rest == [] {
      assert a + rest == a;
    } else {
      IndexAfter(a, ' ', rest[1..]);
      assert a + [' '] + rest[1..] == a + rest;
    }
  }

  /** Two spellings of the command word that differ only in case give the
      same outcome. */
  lemma {:induction false} CaseInsensitive(a: string, b: string, rest: string)
    requires |a| == 6 && |b| == 6 && Upper(a) == Upper(b)
    requires forall i :: 0 <= i < 6 ==> IsLetter(a[i]) && IsLetter(b[i])
    requires rest == [] || rest[0] == ' '
    requires |a| + |rest| <= NPOS
    ensures Parse(a + rest) == Parse(b + rest)
  {
    WordFirst(a, rest);
    WordFirst(b, rest);
    if rest != [] {
      assert (a + rest)[7..] == rest[1..] == (b + rest)[7..];
    }
    CreateTableAgree(a + rest, b + rest);
    assert Parse(a + rest) == Dispatch(a + rest);
    assert Parse(b + rest) == Dispatch(b + rest);
  }
}
