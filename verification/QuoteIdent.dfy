/**
 quote_ident prints a name so that parse_ident can read it back.  The parser is a loop over the
 characters with a quoting flag; the printer doubles quotes and wraps names that need it.  Reading
 back the dot-joined printing of a list of names gives the list, for exactly the lists stated below.
 */
module QuoteIdent {
  import opened Wrappers

  /** The Unicode tables: which characters are letters, which letters or digits, and upper case. */
  datatype Unicode = Unicode(alphabetic: char -> bool, alphanumeric: char -> bool, upper: string -> string)

  /** Neither the quote nor the dot is a letter or digit. */
  predicate Sensible(u: Unicode) {
    !u.alphabetic('"') && !u.alphabetic('.') && !u.alphanumeric('"') && !u.alphanumeric('.')
  }

  const RESERVED: set<string> :=
    {"ALL", "ANALYSE", "ANALYZE", "AND", "ANY", "ARRAY", "AS", "ASC", "ASYMMETRIC", "AUTHORIZATION", "BETWEEN",
     "BINARY", "BOTH"} +
    {"CASE", "CAST", "CHECK", "COLLATE", "COLUMN", "CONCURRENTLY", "CONSTRAINT", "CREATE", "CROSS",
     "CURRENT_CATALOG", "CURRENT_DATE", "CURRENT_ROLE", "CURRENT_SCHEMA", "CURRENT_TIME", "CURRENT_TIMESTAMP",
     "CURRENT_USER"} +
    {"DEFAULT", "DEFERRABLE", "DESC", "DISTINCT", "DO", "ELSE", "END", "EXCEPT", "FALSE", "FETCH", "FOR", "FOREIGN",
     "FROM", "FULL", "GRANT", "GROUP", "HAVING", "ILIKE", "IN", "INITIALLY", "INNER", "INTERSECT", "INTO", "IS",
     "ISNULL"} +
    {"JOIN", "LATERAL", "LEADING", "LEFT", "LIKE", "LIMIT", "LOCALTIME", "LOCALTIMESTAMP", "NATURAL", "NOT",
     "NOTNULL", "NULL", "OFFSET", "ON", "ONLY", "OR", "ORDER", "OUTER", "OVERLAPS"} +
    {"PLACING", "PRIMARY", "REFERENCES", "RETURNING", "RIGHT", "SELECT", "SESSION_USER", "SIMILAR", "SOME",
     "SYMMETRIC"} +
    {"TABLE", "TABLESAMPLE", "THEN", "TO", "TRAILING", "TRUE", "UNION", "UNIQUE", "USER", "USING", "VARIADIC",
     "VERBOSE", "WHEN", "WHERE", "WINDOW", "WITH"}

  // ---------- Printing ----------

  predicate NeedsQuoting(u: Unicode, ident: string) {
    ident == [] ||
    !(u.alphabetic(ident[0]) || ident[0] == '_') ||
    (exists i :: 1 <= i < |ident| && !(u.alphanumeric(ident[i]) || ident[i] == '_')) ||
    u.upper(ident) in RESERVED
  }

  /** `replace('"', "\"\"")`. */
  function Escape(s: string): string {
    if s == [] then [] else (if s[0] == '"' then "\"\"" else [s[0]]) + Escape(s[1..])
  }

  predicate BothEnded(ident: string) {
    ident != [] && ident[0] == '"' && ident[|ident| - 1] == '"'
  }

  /** An identifier that already starts and ends with a quote is escaped but not wrapped. */
  function Quote(u: Unicode, ident: string): string {
    if BothEnded(ident) then Escape(ident)
    else if NeedsQuoting(u, ident) then "\"" + Escape(ident) + "\""
    else ident
  }

  function QuoteJoin(u: Unicode, names: seq<string>): string {
    if names == [] then []
    else Quote(u, names[0]) + if |names| == 1 then [] else "." + QuoteJoin(u, names[1..])
  }

  /** A letter or underscore, then letters, digits and underscores, and no reserved word. */
  predicate IsPlainWord(u: Unicode, name: string) {
    name != "" && (u.alphabetic(name[0]) || name[0] == '_') &&
    (forall i :: 1 <= i < |name| ==> u.alphanumeric(name[i]) || name[i] == '_') && u.upper(name) !in RESERVED
  }

  /** Such a word is printed as it is, and no other name; a name that begins and ends with a double quote gets no quotes
      around it, any other gets two. */
  lemma QuoteExactly(u: Unicode, name: string)
    requires Sensible(u)
    ensures Quote(u, name) == name <==> IsPlainWord(u, name)
    ensures !IsPlainWord(u, name) ==>
            Quote(u, name) ==
            if name != "" && name[0] == '"' && name[|name| - 1] == '"' then Escape(name)
            else "\"" + Escape(name) + "\""
  {
    hide RESERVED;
    EscapeLength(name);
    hide Escape;
  }

  /** A reserved word is quoted, in whatever case it is written. */
  lemma ReservedQuoted(u: Unicode, name: string)
    requires Sensible(u) && forall i :: 0 <= i < |name| ==> name[i] != '"'
    requires u.upper(name) == "ALL" || u.upper(name) == "SELECT" || u.upper(name) == "USER" || u.upper(name) == "WITH"
    ensures Quote(u, name) == "\"" + name + "\""
  {
    hide *;
    SomeReserved();
    NotPlain(u, name);
    QuoteExactly(u, name);
    NothingEscaped(name);
    if name != "" { assert name[0] != '"'; }
  }

  lemma SomeReserved()
    ensures "ALL" in RESERVED && "SELECT" in RESERVED && "USER" in RESERVED && "WITH" in RESERVED
  {
  }

  lemma NotPlain(u: Unicode, name: string)
    ensures u.upper(name) in RESERVED ==> !IsPlainWord(u, name)
  {
    hide RESERVED;
  }

  lemma NothingEscaped(s: string)
    requires forall i :: 0 <= i < |s| ==> s[i] != '"'
    ensures Escape(s) == s
  {
  }

  lemma {:induction false} EscapeLength(s: string)
    ensures |Escape(s)| >= |s| && (|Escape(s)| == |s| <==> forall i :: 0 <= i < |s| ==> s[i] != '"')
  {
    if s != [] { EscapeLength(s[1..]); }
  }

  /** Every double quote is doubled where it stands, and nothing else changes. */
  lemma {:induction false} EscapeExactly(before: string, c: char, after: string)
    ensures Escape(before + [c] + after) == Escape(before) + (if c == '"' then ['"', '"'] else [c]) + Escape(after)
  {
    var s := before + [c] + after;
    if before == [] {
      assert s[0] == c && s[1..] == after && Escape(before) == [];
    } else {
      assert s[0] == before[0] && s[1..] == before[1..] + [c] + after;
      EscapeExactly(before[1..], c, after);
    }
  }

  // ---------- Parsing ----------

  datatype ParseError = EmptyIdentifier | EmptyPart | Unterminated | NoParts

  type Parsed = Result<seq<string>, ParseError>

  /** The loop's variables. */
  datatype State = State(parts: seq<string>, current: string, inQuotes: bool)

  function Flush(st: State): State {
    if st.current == [] then st else State(st.parts + [st.current], [], st.inQuotes)
  }

  /** What remains to be done from state `st` with `rest` unread; `last` says the input ended in a dot. */
  function Scan(rest: string, st: State, strict: bool, endsInDot: bool): Parsed
    decreases |rest|
  {
    if rest == [] then Finish(st, strict, endsInDot)
    else if rest[0] == '"' && !st.inQuotes then Scan(rest[1..], st.(inQuotes := true), strict, endsInDot)
    else if rest[0] == '"' then
      if |rest| > 1 && rest[1] == '"' then Scan(rest[2..], st.(current := st.current + ['"']), strict, endsInDot)
      else Scan(rest[1..], Flush(st.(inQuotes := false)), strict, endsInDot)
    else if rest[0] == '.' && !st.inQuotes then
      if st.current == [] && strict then Err(EmptyPart)
      else Scan(rest[1..], Flush(st), strict, endsInDot)
    else Scan(rest[1..], st.(current := st.current + [rest[0]]), strict, endsInDot)
  }

  function Finish(st: State, strict: bool, endsInDot: bool): Parsed {
    if st.inQuotes then Err(Unterminated)
    else if st.current == [] && endsInDot && strict then Err(EmptyPart)
    else
      var parts := Flush(st).parts;
      if parts == [] then Err(NoParts) else Ok(parts)
  }

  predicate EndsInDot(ident: string) {
    ident != [] && ident[|ident| - 1] == '.'
  }

  const START := State([], [], false)

  function ParseIdent(ident: string, strict: bool): Parsed {
    if ident == [] then Err(EmptyIdentifier) else Scan(ident, START, strict, EndsInDot(ident))
  }

  method ParseIdentString(ident: string, strict: bool) returns (result: Parsed)
    ensures result == ParseIdent(ident, strict)
  {
    hide EndsInDot;
    if ident == [] { return Err(EmptyIdentifier); }
    var parts: seq<string>, currentPart: string, inQuotes := [], [], false;
    var i := 0;
    assert ident[0..] == ident;
    while i < |ident|
      invariant i <= |ident|
      invariant ParseIdent(ident, strict) ==
                Scan(ident[i..], State(parts, currentPart, inQuotes), strict, EndsInDot(ident))
      decreases |ident| - i
    {
      var c := ident[i];
      assert ident[i..][1..] == ident[i + 1..];
      if c == '"' && !inQuotes {
        inQuotes := true;
        i := i + 1;
      } else if c == '"' {
        i := i + 1;
        if i < |ident| && ident[i] == '"' {
          assert ident[i - 1..][2..] == ident[i + 1..];
          currentPart := currentPart + ['"'];
          i := i + 1;
        } else {
          inQuotes := false;
          if currentPart != [] {
            parts := parts + [currentPart];
            currentPart := [];
          }
        }
      } else if c == '.' && !inQuotes {
        i := i + 1;
        if currentPart != [] {
          parts := parts + [currentPart];
          currentPart := [];
        } else if strict {
          return Err(EmptyPart);
        }
      } else {
        currentPart := currentPart + [c];
        i := i + 1;
      }
    }
    if inQuotes { return Err(Unterminated); }
    if currentPart != [] {
      parts := parts + [currentPart];
    } else if EndsInDot(ident) && strict {
      return Err(EmptyPart);
    }
    if parts == [] { result := Err(NoParts); } else { result := Ok(parts); }
  }

  // ---------- Reading back one printed name ----------

  predicate Bare(s: string) {
    forall i :: 0 <= i < |s| ==> s[i] != '"' && s[i] != '.'
  }

  lemma UnquotedIsBare(u: Unicode, name: string)
    requires Sensible(u) && !NeedsQuoting(u, name)
    ensures Bare(name) && name != []
  {
    hide RESERVED;
  }

  /** Outside quotes, ordinary characters collect in the current part. */
  lemma {:induction false} ScanBare(s: string, rest: string, st: State, strict: bool, dot: bool)
    requires Bare(s) && !st.inQuotes
    ensures Scan(s + rest, st, strict, dot) == Scan(rest, st.(current := st.current + s), strict, dot)
    decreases |s|
  {
    if s == [] {
      assert s + rest == rest && st.current + s == st.current;
    } else {
      assert (s + rest)[1..] == s[1..] + rest;
      assert st.current + [s[0]] + s[1..] == st.current + s;
      ScanBare(s[1..], rest, st.(current := st.current + [s[0]]), strict, dot);
    }
  }

  /** Inside quotes, an escaped name followed by a closing quote is read in full. */
  lemma {:induction false} ScanEscaped(s: string, rest: string, st: State, strict: bool, dot: bool)
    requires st.inQuotes && (rest == [] || rest[0] != '"')
    ensures Scan(Escape(s) + "\"" + rest, st, strict, dot)
         == Scan(rest, Flush(State(st.parts, st.current + s, false)), strict, dot)
    decreases |s|
  {
    var input := Escape(s) + "\"" + rest;
    if s == [] {
      assert input == "\"" + rest && input[1..] == rest && st.current + s == st.current;
    } else {
      assert st.current + [s[0]] + s[1..] == st.current + s;
      ScanEscaped(s[1..], rest, st.(current := st.current + [s[0]]), strict, dot);
      if s[0] == '"' {
        assert input[2..] == Escape(s[1..]) + "\"" + rest;
      } else {
        assert input[1..] == Escape(s[1..]) + "\"" + rest;
      }
    }
  }

  predicate Good(name: string) {
    name != [] && !BothEnded(name)
  }

  /** After a good name: its part is pushed if it was quoted, still current if it was not. */
  function AfterName(u: Unicode, name: string, parts: seq<string>): State {
    if NeedsQuoting(u, name) then State(parts + [name], [], false) else State(parts, name, false)
  }

  lemma ScanGood(u: Unicode, name: string, rest: string, parts: seq<string>, strict: bool, dot: bool)
    requires Sensible(u) && Good(name) && (rest == [] || rest[0] != '"')
    ensures Scan(Quote(u, name) + rest, State(parts, [], false), strict, dot) ==
            Scan(rest, AfterName(u, name, parts), strict, dot)
  {
    hide RESERVED;
    var st := State(parts, [], false);
    if NeedsQuoting(u, name) {
      var input := Quote(u, name) + rest;
      assert input[1..] == Escape(name) + "\"" + rest;
      assert [] + name == name;
      ScanEscaped(name, rest, st.(inQuotes := true), strict, dot);
    } else {
      UnquotedIsBare(u, name);
      assert [] + name == name;
      ScanBare(name, rest, st, strict, dot);
    }
  }

  /** No name before the last one had to be quoted. */
  predicate OnlyLastQuoted(u: Unicode, names: seq<string>) {
    forall i :: 0 <= i < |names| - 1 ==> !NeedsQuoting(u, names[i])
  }

  lemma OnlyLastStep(u: Unicode, names: seq<string>)
    requires |names| > 1
    ensures OnlyLastQuoted(u, names) <==> !NeedsQuoting(u, names[0]) && OnlyLastQuoted(u, names[1..])
  {
    hide RESERVED;
    hide NeedsQuoting;
    assert forall i :: 0 <= i < |names| - 1 ==> names[1..][i] == names[i + 1];
    if !NeedsQuoting(u, names[0]) && OnlyLastQuoted(u, names[1..]) {
      forall i | 0 <= i < |names| - 1 ensures !NeedsQuoting(u, names[i]) {
        if i > 0 { assert names[i] == names[1..][i - 1]; }
      }
    }
  }

  /** The dot after a name: strict mode rejects it when the name was quoted, its part being pushed already. */
  lemma ScanDot(u: Unicode, name: string, more: string, parts: seq<string>, strict: bool)
    requires name != []
    ensures Scan("." + more, AfterName(u, name, parts), strict, false)
         == if strict &&
           NeedsQuoting(u, name) then Err(EmptyPart) else Scan(more, State(parts + [name], [], false), strict, false)
  {
    assert ("." + more)[1..] == more;
    hide NeedsQuoting;
  }

  lemma JoinIs(u: Unicode, names: seq<string>)
    requires names != []
    ensures QuoteJoin(u, names) ==
            Quote(u, names[0]) + if |names| == 1 then [] else "." + QuoteJoin(u, names[1..])
  {
    hide Quote;
  }

  lemma ScanFinished(u: Unicode, name: string, parts: seq<string>, strict: bool)
    requires name != []
    ensures Scan([], AfterName(u, name, parts), strict, false) == Ok(parts + [name])
  {
    hide NeedsQuoting;
  }

  lemma GoodName(names: seq<string>)
    requires names != [] && forall n :: n in names ==> Good(n)
    ensures Good(names[0]) && names[0] != [] && forall n :: n in names[1..] ==> Good(n)
  {
    assert names[0] in names;
  }

  lemma OnlyOne(u: Unicode, names: seq<string>)
    requires |names| == 1
    ensures OnlyLastQuoted(u, names)
  {
    hide NeedsQuoting;
  }

  lemma {:induction false} ScanNames(u: Unicode, names: seq<string>, parts: seq<string>, strict: bool)
    requires Sensible(u) && names != [] && forall n :: n in names ==> Good(n)
    ensures Scan(QuoteJoin(u, names), State(parts, [], false), strict, false)
         == if strict && !OnlyLastQuoted(u, names) then Err(EmptyPart) else Ok(parts + names)
    decreases |names|
  {
    hide *;
    var name, more := names[0], names[1..];
    GoodName(names);
    JoinIs(u, names);
    if |names| == 1 {
      ScanGood(u, name, [], parts, strict, false);
      ScanFinished(u, name, parts, strict);
      OnlyOne(u, names);
      assert names == [name];
    } else {
      var rest := QuoteJoin(u, more);
      ScanGood(u, name, "." + rest, parts, strict, false);
      ScanDot(u, name, rest, parts, strict);
      assert parts + [name] + more == parts + names;
      ScanNames(u, more, parts + [name], strict);
      OnlyLastStep(u, names);
    }
  }

  // ---------- Names that cannot be read back ----------

  /** How many double quotes. */
  function Quotes(s: string): nat {
    if s == [] then 0 else (if s[0] == '"' then 1 else 0) + Quotes(s[1..])
  }

  function QuotesIn(parts: seq<string>): nat {
    if parts == [] then 0 else Quotes(parts[0]) + QuotesIn(parts[1..])
  }

  function Held(st: State): nat {
    QuotesIn(st.parts) + Quotes(st.current)
  }

  lemma {:induction false} QuotesConcat(a: string, b: string)
    ensures Quotes(a + b) == Quotes(a) + Quotes(b)
  {
    if a == [] {
      assert a + b == b;
    } else {
      assert (a + b)[1..] == a[1..] + b;
      QuotesConcat(a[1..], b);
    }
  }

  lemma {:induction false} QuotesInAppend(parts: seq<string>, part: string)
    ensures QuotesIn(parts + [part]) == QuotesIn(parts) + Quotes(part)
  {
    if parts == [] {
      assert parts + [part] == [part] && [part][1..] == [];
    } else {
      assert (parts + [part])[1..] == parts[1..] + [part];
      QuotesInAppend(parts[1..], part);
    }
  }

  lemma PushHolds(st: State, c: char)
    ensures Held(st.(current := st.current + [c])) == Held(st) + if c == '"' then 1 else 0
  {
    QuotesConcat(st.current, [c]);
    assert [c][1..] == [];
  }

  lemma FlushHolds(st: State)
    ensures Held(Flush(st)) == Held(st) && Flush(st).inQuotes == st.inQuotes
  {
    QuotesInAppend(st.parts, st.current);
  }

  /** One step of the scan: an opening quote, a doubled one, a closing one, any other character outside quotes. */
  lemma ScanOpen(input: string, st: State, strict: bool, dot: bool)
    requires input != [] && input[0] == '"' && !st.inQuotes
    ensures Scan(input, st, strict, dot) == Scan(input[1..], st.(inQuotes := true), strict, dot)
    ensures Held(st.(inQuotes := true)) == Held(st)
  {
  }

  lemma ScanPair(input: string, st: State, strict: bool, dot: bool)
    requires |input| > 1 && input[0] == '"' && input[1] == '"' && st.inQuotes
    ensures Scan(input, st, strict, dot) == Scan(input[2..], st.(current := st.current + ['"']), strict, dot)
    ensures Held(st.(current := st.current + ['"'])) == Held(st) + 1
  {
    PushHolds(st, '"');
    hide Held;
  }

  lemma ScanClose(input: string, st: State, strict: bool, dot: bool)
    requires input != [] && input[0] == '"' && (|input| > 1 ==> input[1] != '"') && st.inQuotes
    ensures var closed := Flush(st.(inQuotes := false));
            Scan(input, st, strict, dot) == Scan(input[1..], closed, strict, dot) &&
            Held(closed) == Held(st) && !closed.inQuotes
  {
    FlushHolds(st.(inQuotes := false));
    hide QuotesIn, Quotes;
  }

  lemma ScanOther(input: string, st: State, dot: bool) returns (next: State)
    requires input != [] && input[0] != '"' && !st.inQuotes
    ensures Scan(input, st, false, dot) == Scan(input[1..], next, false, dot) && Held(next) == Held(st) &&
            !next.inQuotes
  {
    next := if input[0] == '.' then Flush(st) else st.(current := st.current + [input[0]]);
    FlushHolds(st);
    PushHolds(st, input[0]);
    hide Held;
  }

  lemma QuotesCons(s: string)
    requires s != []
    ensures Quotes(s) == (if s[0] == '"' then 1 else 0) + Quotes(s[1..])
  {
  }

  lemma EscapeCons(s: string)
    requires s != []
    ensures Escape(s) == (if s[0] == '"' then "\"\"" else [s[0]]) + Escape(s[1..])
  {
  }

  /** What an input is that begins with an escaped name, as the scan takes it apart. */
  lemma EscapedInput(s: string, rest: string)
    requires s != []
    ensures var input, next := Escape(s) + rest, Escape(s[1..]) + rest;
            input != [] && input[0] == s[0] && input[1..] == if s[0] == '"' then "\"" + next else next
  {
    EscapeCons(s);
    if s[0] == '"' { AfterFirst("\"\"", Escape(s[1..]), rest); } else { AfterFirst([s[0]], Escape(s[1..]), rest); }
    hide *;
  }

  lemma AfterFirst(a: string, b: string, c: string)
    requires a != []
    ensures var all := a + b + c; all[0] == a[0] && all[1..] == a[1..] + (b + c)
  {
  }

  lemma QuotedInput(input: string)
    ensures var quoted := "\"" + input;
            quoted[0] == '"' && quoted[1..] == input && |quoted| == |input| + 1 &&
            (input != [] ==> quoted[1] == input[0] && quoted[2..] == input[1..])
  {
  }

  /** Doubled quotes read with one quote pending: ... */
  lemma {:induction false} ScanPending(s: string, rest: string, st: State, dot: bool) returns (after: State)
    requires (rest == [] || rest[0] != '"') && st.inQuotes
    ensures Scan("\"" + (Escape(s) + rest), st, false, dot) == Scan(rest, after, false, dot) && !after.inQuotes
    ensures Held(after) <= Held(st) + Quotes(s)
    decreases |s|, 1
  {
    EscapeNone(rest);
    hide *;
    var input := Escape(s) + rest;
    QuotedInput(input);
    if s != [] {
      EscapedInput(s, rest);
      QuotesCons(s);
    }
    if s != [] && s[0] == '"' {
      ScanPair("\"" + input, st, false, dot);
      after := ScanPending(s[1..], rest, st.(current := st.current + ['"']), dot);
    } else {
      ScanClose("\"" + input, st, false, dot);
      after := ScanUnquoted(s, rest, Flush(st.(inQuotes := false)), dot);
    }
  }

  lemma EscapeNone(rest: string)
    ensures Escape([]) + rest == rest && Quotes([]) == 0
  {
  }

  /** ... and outside quotes: each run of them loses one. */
  lemma {:induction false} ScanUnquoted(s: string, rest: string, st: State, dot: bool) returns (after: State)
    requires (rest == [] || rest[0] != '"') && !st.inQuotes
    ensures Scan(Escape(s) + rest, st, false, dot) == Scan(rest, after, false, dot) && !after.inQuotes
    ensures Held(after) + (if '"' in s then 1 else 0) <= Held(st) + Quotes(s)
    decreases |s|, 0
  {
    EscapeNone(rest);
    hide *;
    var input := Escape(s) + rest;
    if s == [] {
      after := st;
    } else {
      EscapedInput(s, rest);
      QuotesCons(s);
      if s[0] == '"' {
        ScanOpen(input, st, false, dot);
        after := ScanPending(s[1..], rest, st.(inQuotes := true), dot);
      } else {
        var next := ScanOther(input, st, dot);
        after := ScanUnquoted(s[1..], rest, next, dot);
      }
    }
  }

  /** Reading one printed name never gains quotes, and loses some when the name was both-ended. */
  lemma ScanAnyName(u: Unicode, name: string, rest: string, parts: seq<string>, dot: bool) returns (after: State)
    requires Sensible(u) && (rest == [] || rest[0] != '"')
    ensures Scan(Quote(u, name) + rest, State(parts, [], false), false, dot) == Scan(rest, after, false, dot)
    ensures !after.inQuotes
    ensures Held(after) + (if BothEnded(name) then 1 else 0) <= QuotesIn(parts) + Quotes(name)
  {
    hide RESERVED;
    var st := State(parts, [], false);
    if BothEnded(name) {
      after := ScanUnquoted(name, rest, st, dot);
    } else if name == [] {
      var input := "\"" + Escape(name) + "\"" + rest;
      assert input[1..] == "\"" + (Escape([]) + rest);
      after := ScanPending([], rest, st.(inQuotes := true), dot);
    } else {
      ScanGood(u, name, rest, parts, false, dot);
      after := AfterName(u, name, parts);
      QuotesInAppend(parts, name);
    }
  }

  /** The parts read back hold at most the quotes of the names, fewer if some name was both-ended. */
  lemma {:induction false} ScanLosesQuotes(u: Unicode, names: seq<string>, parts: seq<string>, dot: bool)
    requires Sensible(u) && names != []
    ensures var r := Scan(QuoteJoin(u, names), State(parts, [], false), false, dot);
            r.Ok? ==>
              QuotesIn(r.value) + (if exists n :: n in names && BothEnded(n) then 1 else 0)
              <= QuotesIn(parts) + QuotesIn(names)
    decreases |names|
  {
    hide RESERVED;
    var name, more := names[0], names[1..];
    hide Quote, BothEnded;
    if more == [] {
      assert Quote(u, name) + [] == QuoteJoin(u, names);
      var after := ScanAnyName(u, name, [], parts, dot);
      FlushHolds(after);
      assert names == [name];
    } else {
      var rest := "." + QuoteJoin(u, more);
      var after := ScanAnyName(u, name, rest, parts, dot);
      FlushHolds(after);
      assert rest[1..] == QuoteJoin(u, more);
      ScanLosesQuotes(u, more, Flush(after).parts, dot);
      assert Scan(rest, after, false, dot) == Scan(rest[1..], Flush(after), false, dot);
      assert forall n :: n in names <==> n == name || n in more;
    }
  }

  predicate NoneEmpty(parts: seq<string>) {
    forall p :: p in parts ==> p != []
  }

  /** No part is ever empty. */
  lemma {:induction false} PartsNonEmpty(rest: string, st: State, strict: bool, dot: bool)
    requires NoneEmpty(st.parts)
    ensures Scan(rest, st, strict, dot).Ok? ==> NoneEmpty(Scan(rest, st, strict, dot).value)
    decreases |rest|
  {
    assert NoneEmpty(Flush(st).parts) && NoneEmpty(Flush(st.(inQuotes := false)).parts);
    hide NoneEmpty, Flush;
    if rest != [] {
      if rest[0] == '"' && !st.inQuotes {
        PartsNonEmpty(rest[1..], st.(inQuotes := true), strict, dot);
      } else if rest[0] == '"' {
        if |rest| > 1 && rest[1] == '"' {
          PartsNonEmpty(rest[2..], st.(current := st.current + ['"']), strict, dot);
        } else {
          PartsNonEmpty(rest[1..], Flush(st.(inQuotes := false)), strict, dot);
        }
      } else if rest[0] == '.' && !st.inQuotes {
        PartsNonEmpty(rest[1..], Flush(st), strict, dot);
      } else {
        PartsNonEmpty(rest[1..], st.(current := st.current + [rest[0]]), strict, dot);
      }
    }
  }

  /** Strict mode only ever turns a result into an error. */
  lemma {:induction false} StrictAgrees(rest: string, st: State, dot: bool)
    ensures var r := Scan(rest, st, true, dot); r.Ok? ==> r == Scan(rest, st, false, dot)
    decreases |rest|
  {
    if rest != [] {
      if rest[0] == '"' && !st.inQuotes {
        StrictAgrees(rest[1..], st.(inQuotes := true), dot);
      } else if rest[0] == '"' {
        if |rest| > 1 && rest[1] == '"' {
          StrictAgrees(rest[2..], st.(current := st.current + ['"']), dot);
        } else {
          StrictAgrees(rest[1..], Flush(st.(inQuotes := false)), dot);
        }
      } else if rest[0] == '.' && !st.inQuotes {
        StrictAgrees(rest[1..], Flush(st), dot);
      } else {
        StrictAgrees(rest[1..], st.(current := st.current + [rest[0]]), dot);
      }
    }
  }

  // ---------- The round trip, exactly ----------

  lemma {:induction false} NeverEndsInDot(u: Unicode, names: seq<string>)
    requires Sensible(u) && names != [] && forall n :: n in names ==> Good(n)
    ensures QuoteJoin(u, names) != [] && !EndsInDot(QuoteJoin(u, names))
  {
    hide RESERVED;
    assert Good(names[0]);
    if |names| == 1 {
      if !NeedsQuoting(u, names[0]) { UnquotedIsBare(u, names[0]); }
    } else {
      NeverEndsInDot(u, names[1..]);
    }
  }

  predicate Readable(names: seq<string>) {
    names != [] && forall n :: n in names ==> Good(n)
  }

  lemma UnreadableFails(u: Unicode, names: seq<string>)
    requires Sensible(u) && !Readable(names)
    ensures ParseIdent(QuoteJoin(u, names), false) != Ok(names)
  {
    hide RESERVED;
    if names != [] && ParseIdent(QuoteJoin(u, names), false) == Ok(names) {
      var dot := EndsInDot(QuoteJoin(u, names));
      PartsNonEmpty(QuoteJoin(u, names), START, false, dot);
      ScanLosesQuotes(u, names, [], dot);
    }
  }

  /** parse_ident reads back the dot-joined quote_ident of exactly the non-empty lists of non-empty
      names none of which both starts and ends with a quote. */
  lemma RoundTripExactly(u: Unicode, names: seq<string>)
    requires Sensible(u)
    ensures ParseIdent(QuoteJoin(u, names), false) == Ok(names) <==> Readable(names)
  {
    hide RESERVED;
    if Readable(names) {
      NeverEndsInDot(u, names);
      ScanNames(u, names, [], false);
      assert [] + names == names;
    } else {
      UnreadableFails(u, names);
    }
  }

  /** In strict mode moreover no name before the last may have needed quoting. */
  lemma StrictRoundTripExactly(u: Unicode, names: seq<string>)
    requires Sensible(u)
    ensures ParseIdent(QuoteJoin(u, names), true) == Ok(names) <==> Readable(names) && OnlyLastQuoted(u, names)
  {
    hide RESERVED;
    if Readable(names) {
      NeverEndsInDot(u, names);
      ScanNames(u, names, [], true);
      assert [] + names == names;
    } else {
      UnreadableFails(u, names);
      StrictAgrees(QuoteJoin(u, names), START, EndsInDot(QuoteJoin(u, names)));
    }
  }

  // ---------- Names read as themselves ----------

  function Extent(parts: seq<string>): nat {
    if parts == [] then 0 else Extent(parts[..|parts| - 1]) + |parts[|parts| - 1]|
  }

  lemma ExtentPush(parts: seq<string>, part: string)
    ensures Extent(parts + [part]) == Extent(parts) + |part|
  {
    assert (parts + [part])[..|parts|] == parts;
  }

  lemma FlushExtent(st: State)
    ensures Extent(Flush(st).parts) + |Flush(st).current| == Extent(st.parts) + |st.current|
    ensures Flush(st).inQuotes == st.inQuotes && Flush(st).current == []
  {
    ExtentPush(st.parts, st.current);
    hide Extent;
  }

  /** The parts hold no more characters than were read, and fewer once a quote or a separating dot was. */
  lemma {:induction false} ScanExtent(rest: string, st: State, dot: bool)
    ensures var r := Scan(rest, st, false, dot);
            r.Ok? ==> Extent(r.value) <= Extent(st.parts) + |st.current| + |rest| &&
                      (!st.inQuotes && !Bare(rest) ==> Extent(r.value) < Extent(st.parts) + |st.current| + |rest|)
    decreases |rest|
  {
    FlushExtent(st);
    FlushExtent(st.(inQuotes := false));
    hide Extent;
    if rest != [] {
      var c, tail := rest[0], rest[1..];
      assert Bare(rest) <==> c != '"' && c != '.' && Bare(tail);
      if c == '"' && !st.inQuotes {
        ScanExtent(tail, st.(inQuotes := true), dot);
      } else if c == '"' {
        if |rest| > 1 && rest[1] == '"' {
          ScanExtent(rest[2..], st.(current := st.current + ['"']), dot);
        } else {
          ScanExtent(tail, Flush(st.(inQuotes := false)), dot);
        }
      } else if c == '.' && !st.inQuotes {
        ScanExtent(tail, Flush(st), dot);
      } else {
        ScanExtent(tail, st.(current := st.current + [c]), dot);
      }
    }
  }

  lemma BareName(name: string)
    requires name != [] && Bare(name)
    ensures ParseIdent(name, false) == Ok([name])
  {
    ScanBare(name, [], START, false, EndsInDot(name));
    assert name + [] == name && [] + name == name;
    ScanLast(name, EndsInDot(name));
  }

  lemma ScanLast(name: string, dot: bool)
    requires name != []
    ensures Scan([], State([], name, false), false, dot) == Ok([name])
  {
    assert [] + [name] == [name];
  }

  lemma OnlyBareName(name: string)
    requires name != [] && Scan(name, State([], [], false), false, EndsInDot(name)) == Ok([name])
    ensures Bare(name)
  {
    ScanExtent(name, State([], [], false), EndsInDot(name));
    ExtentPush([], name);
    assert [] + [name] == [name] && Extent([]) == 0;
    hide Scan, Extent, Bare, EndsInDot;
  }

  /** A name is read as itself exactly when it is not empty and holds neither a quote nor a dot. */
  lemma NameItself(name: string)
    ensures ParseIdent(name, false) == Ok([name]) <==> name != [] && Bare(name)
  {
    if name == [] {
      assert ParseIdent(name, false) == Err(EmptyIdentifier);
    } else {
      hide *;
      if Bare(name) { BareName(name); }
      ParseIs(name);
      if Scan(name, State([], [], false), false, EndsInDot(name)) == Ok([name]) { OnlyBareName(name); }
    }
  }

  /** Two plain names with a dot between them are read as the two. */
  lemma DottedNames(first: string, second: string)
    requires Bare(first) && Bare(second) && first != [] && second != []
    ensures ParseIdent(first + "." + second, false) == Ok([first, second])
  {
    var ident := first + "." + second;
    assert ident == first + ("." + second) && second + [] == second && [] + first == first && [] + second == second;
    ParseIs(ident);
    hide *;
    ScanBare(first, "." + second, State([], [], false), false, EndsInDot(ident));
    ScanSeparator(first, second, EndsInDot(ident));
    ScanBare(second, [], State([first], [], false), false, EndsInDot(ident));
    ScanEnd(first, second, EndsInDot(ident));
  }

  lemma ParseIs(ident: string)
    requires ident != []
    ensures ParseIdent(ident, false) == Scan(ident, State([], [], false), false, EndsInDot(ident))
  {
    hide Scan;
  }

  lemma ScanSeparator(first: string, rest: string, dot: bool)
    requires first != []
    ensures Scan("." + rest, State([], first, false), false, dot) == Scan(rest, State([first], [], false), false, dot)
  {
    assert ("." + rest)[1..] == rest && [] + [first] == [first];
  }

  lemma ScanEnd(first: string, second: string, dot: bool)
    requires second != []
    ensures Scan([], State([first], second, false), false, dot) == Ok([first, second])
  {
    assert [first] + [second] == [first, second];
  }

  // ---------- The function of that name ----------

  /** parse_ident: outside strict mode an invalid identifier gives an empty array. */
  function ParseIdentFunction(ident: string, strict: bool): Parsed {
    match ParseIdent(ident, strict)
    case Ok(parts) => Ok(parts)
    case Err(e) => if strict then Err(e) else Ok([])
  }

  /** Through it the empty list is read back as well, and nothing else besides. */
  lemma FunctionRoundTripExactly(u: Unicode, names: seq<string>)
    requires Sensible(u)
    ensures ParseIdentFunction(QuoteJoin(u, names), false) == Ok(names) <==> Readable(names) || names == []
    ensures ParseIdentFunction(QuoteJoin(u, names), true) == Ok(names) <==> Readable(names) && OnlyLastQuoted(u, names)
  {
    RoundTripExactly(u, names);
    StrictRoundTripExactly(u, names);
    if names != [] { NoPartsNever(QuoteJoin(u, names)); }
    hide Readable, OnlyLastQuoted, Scan;
  }

  lemma NoPartsNever(ident: string)
    ensures ParseIdent(ident, false) != Ok([])
  {
    if ident != [] { SomePart(ident, START, EndsInDot(ident)); }
    hide Scan;
  }

  lemma {:induction false} SomePart(rest: string, st: State, dot: bool)
    ensures Scan(rest, st, false, dot) != Ok([])
    decreases |rest|
  {
    if rest != [] {
      if rest[0] == '"' && !st.inQuotes {
        SomePart(rest[1..], st.(inQuotes := true), dot);
      } else if rest[0] == '"' {
        if |rest| > 1 && rest[1] == '"' {
          SomePart(rest[2..], st.(current := st.current + ['"']), dot);
        } else {
          SomePart(rest[1..], Flush(st.(inQuotes := false)), dot);
        }
      } else if rest[0] == '.' && !st.inQuotes {
        SomePart(rest[1..], Flush(st), dot);
      } else {
        SomePart(rest[1..], st.(current := st.current + [rest[0]]), dot);
      }
    }
  }
}
