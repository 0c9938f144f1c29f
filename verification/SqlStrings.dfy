/** The string operations the rewrite rules lean on: trimming, splitting, decimal digits. */
module SqlStrings {
  /** Rust's `char::is_whitespace`, the Unicode White_Space property. */
  predicate IsWhitespace(c: char) {
    '\U{0009}' <= c <= '\U{000D}' || c == ' ' || c == '\U{0085}' || c == '\U{00A0}' || c == '\U{1680}' ||
    '\U{2000}' <= c <= '\U{200A}' || c == '\U{2028}' || c == '\U{2029}' || c == '\U{202F}' || c == '\U{205F}' ||
    c == '\U{3000}'
  }

  predicate IsBraceOrSpace(c: char) {
    c == '{' || c == '}' || c == ' '
  }

  function TrimStart(s: string, drop: char -> bool): string {
    if s != [] && drop(s[0]) then TrimStart(s[1..], drop) else s
  }

  function TrimEnd(s: string, drop: char -> bool): string {
    if s != [] && drop(s[|s| - 1]) then TrimEnd(s[..|s| - 1], drop) else s
  }

  function TrimBoth(s: string, drop: char -> bool): string {
    TrimEnd(TrimStart(s, drop), drop)
  }

  function Trim(s: string): string {
    TrimBoth(s, IsWhitespace)
  }

  /** `split(sep)`: the stretches between separators, one more than there are separators. */
  function Split(s: string, sep: char): (r: seq<string>)
    ensures r != []
  {
    if s == [] then [[]]
    else
      var rest := Split(s[1..], sep);
      if s[0] == sep then [[]] + rest else [[s[0]] + rest[0]] + rest[1..]
  }

  function Join(parts: seq<string>, sep: char): string {
    if parts == [] then [] else if |parts| == 1 then parts[0] else parts[0] + [sep] + Join(parts[1..], sep)
  }

  // ---------- The elements of an array literal ----------

  /** `'{...}'`, white space around it aside. */
  predicate Braced(s: string) {
    var t := Trim(s);
    t != [] && t[0] == '{' && t[|t| - 1] == '}'
  }

  function NonEmptyTrimmed(parts: seq<string>): seq<string> {
    if parts == [] then []
    else (if Trim(parts[0]) == [] then [] else [Trim(parts[0])]) + NonEmptyTrimmed(parts[1..])
  }

  function ArrayItems(s: string): seq<string> {
    NonEmptyTrimmed(Split(TrimBoth(Trim(s), IsBraceOrSpace), ','))
  }

  /** An element the naive reading gets right: no comma, and no white space at its ends. */
  predicate PlainItem(x: string) {
    x != [] && ',' !in x && !IsWhitespace(x[0]) && !IsWhitespace(x[|x| - 1])
  }

  /** Plain elements, the first of which does not begin and the last of which does not end with a brace. */
  predicate PlainItems(parts: seq<string>) {
    (forall x :: x in parts ==> PlainItem(x)) &&
    (parts != [] ==>
       var last := parts[|parts| - 1];
       PlainItem(parts[0]) && PlainItem(last) && !IsBraceOrSpace(parts[0][0]) && !IsBraceOrSpace(last[|last| - 1]))
  }

  lemma {:induction false} SplitOne(x: string, sep: char)
    requires sep !in x
    ensures Split(x, sep) == [x]
  {
    if x != [] {
      SplitOne(x[1..], sep);
      assert [x[0]] + x[1..] == x;
    }
  }

  lemma {:induction false} SplitCons(x: string, sep: char, rest: string)
    requires sep !in x
    ensures Split(x + [sep] + rest, sep) == [x] + Split(rest, sep)
  {
    var s := x + [sep] + rest;
    if x == [] {
      assert s[1..] == rest;
    } else {
      assert s[1..] == x[1..] + [sep] + rest;
      SplitCons(x[1..], sep, rest);
      assert [x[0]] + x[1..] == x;
    }
  }

  lemma {:induction false} SplitJoin(parts: seq<string>, sep: char)
    requires parts != [] && forall x :: x in parts ==> sep !in x
    ensures Split(Join(parts, sep), sep) == parts
  {
    if |parts| == 1 {
      SplitOne(parts[0], sep);
    } else {
      SplitJoin(parts[1..], sep);
      SplitCons(parts[0], sep, Join(parts[1..], sep));
    }
  }

  lemma {:induction false} PlainItemsKept(parts: seq<string>)
    requires forall x :: x in parts ==> PlainItem(x)
    ensures NonEmptyTrimmed(parts) == parts
  {
    if parts != [] {
      assert PlainItem(parts[0]);
      PlainItemsKept(parts[1..]);
    }
  }

  lemma {:induction false} JoinEnds(parts: seq<string>)
    requires parts != [] && forall x :: x in parts ==> PlainItem(x)
    ensures var s, last := Join(parts, ','), parts[|parts| - 1];
            s != [] && PlainItem(parts[0]) && PlainItem(last) && s[0] == parts[0][0] && s[|s| - 1] == last[|last| - 1]
  {
    assert parts[0] in parts;
    if |parts| > 1 { JoinEnds(parts[1..]); }
  }

  /** `'{...}'` over the elements. */
  function LiteralOf(parts: seq<string>): string {
    "{" + Join(parts, ',') + "}"
  }

  lemma LiteralBraced(parts: seq<string>)
    ensures Trim(LiteralOf(parts)) == LiteralOf(parts) && Braced(LiteralOf(parts))
  {
    var s := LiteralOf(parts);
    assert s[0] == '{' && s[|s| - 1] == '}';
    assert Trim(s) == s;
  }

  lemma PlainItemsRead(parts: seq<string>)
    requires PlainItems(parts)
    ensures ArrayItems(LiteralOf(parts)) == parts
  {
    var inner, s := Join(parts, ','), LiteralOf(parts);
    LiteralBraced(parts);
    assert s[1..] == inner + "}";
    if parts == [] {
      assert s == "{}" && s[1..] == "}" && s[1..][1..] == "";
      assert TrimStart(s[1..], IsBraceOrSpace) == TrimStart("", IsBraceOrSpace) == "";
      assert NonEmptyTrimmed([""]) == [] by { assert Trim("") == "" && [""][1..] == []; }
    } else {
      JoinEnds(parts);
      assert TrimStart(s, IsBraceOrSpace) == inner + "}";
      assert (inner + "}")[..|inner|] == inner;
      assert TrimEnd(inner + "}", IsBraceOrSpace) == inner;
      SplitJoin(parts, ',');
      PlainItemsKept(parts);
    }
  }

  // ---------- No other list is read back ----------

  lemma {:induction false} TrimStartShape(s: string, drop: char -> bool)
    ensures var r := TrimStart(s, drop); |r| <= |s| && (r != [] ==> !drop(r[0])) && r == s[|s| - |r|..]
  {
    if s != [] && drop(s[0]) { TrimStartShape(s[1..], drop); }
  }

  lemma {:induction false} TrimEndShape(s: string, drop: char -> bool)
    ensures var r := TrimEnd(s, drop); |r| <= |s| && (r != [] ==> !drop(r[|r| - 1])) && r == s[..|r|]
  {
    if s != [] && drop(s[|s| - 1]) { TrimEndShape(s[..|s| - 1], drop); }
  }

  lemma TrimBothShape(s: string, drop: char -> bool)
    ensures var r := TrimBoth(s, drop);
            |r| <= |s| && (r != [] ==> !drop(r[0]) && !drop(r[|r| - 1])) && forall c :: c in r ==> c in s
  {
    var t := TrimStart(s, drop);
    TrimStartShape(s, drop);
    TrimEndShape(t, drop);
    var r := TrimEnd(t, drop);
    if r != [] { assert r[0] == t[0]; }
  }

  lemma {:induction false} SplitShape(s: string, sep: char)
    ensures (forall x :: x in Split(s, sep) ==> sep !in x) && Join(Split(s, sep), sep) == s
  {
    if s != [] {
      SplitShape(s[1..], sep);
      var rest := Split(s[1..], sep);
      assert forall x :: x in rest[1..] ==> x in rest;
      if s[0] == sep {
        assert ([[]] + rest)[1..] == rest && s == [sep] + s[1..];
        assert [] + [sep] + Join(rest, sep) == [sep] + Join(rest, sep);
      } else {
        var first := [s[0]] + rest[0];
        assert rest[0] in rest && sep !in first;
        assert Split(s, sep) == [first] + rest[1..];
        hide Split, Join;
        FirstLonger(s[0], rest, sep);
        assert s == [s[0]] + s[1..];
      }
    }
  }

  lemma FirstLonger(c: char, rest: seq<string>, sep: char)
    requires rest != []
    ensures Join([[c] + rest[0]] + rest[1..], sep) == [c] + Join(rest, sep)
  {
    var longer := [[c] + rest[0]] + rest[1..];
    assert longer[1..] == rest[1..];
    if |rest| > 1 {
      var tail := [sep] + Join(rest[1..], sep);
      assert rest[0] + [sep] + Join(rest[1..], sep) == rest[0] + tail;
      assert ([c] + rest[0]) + [sep] + Join(rest[1..], sep) == ([c] + rest[0]) + tail == [c] + (rest[0] + tail);
    }
  }

  /** The length of the elements with a comma before each. */
  function Extent(parts: seq<string>): nat {
    if parts == [] then 0 else 1 + |parts[0]| + Extent(parts[1..])
  }

  lemma {:induction false} ExtentJoin(parts: seq<string>)
    requires parts != []
    ensures Extent(parts) == |Join(parts, ',')| + 1
  {
    if |parts| > 1 { ExtentJoin(parts[1..]); } else { assert parts[1..] == []; }
  }

  /** What is kept is plain and no longer than what was split. */
  lemma {:induction false} KeptShape(parts: seq<string>)
    requires forall x :: x in parts ==> ',' !in x
    ensures var r := NonEmptyTrimmed(parts); (forall x :: x in r ==> PlainItem(x)) && Extent(r) <= Extent(parts)
  {
    if parts != [] {
      assert parts[0] in parts;
      TrimBothShape(parts[0], IsWhitespace);
      KeptShape(parts[1..]);
      var rest, x := NonEmptyTrimmed(parts[1..]), Trim(parts[0]);
      if x != [] { assert ([x] + rest)[1..] == rest; } else { assert [] + rest == rest; }
    }
  }

  /** What is read between the braces, and its extent. */
  lemma ItemsShape(s: string)
    ensures var inner := TrimBoth(Trim(s), IsBraceOrSpace);
            (forall x :: x in ArrayItems(s) ==> PlainItem(x)) && Extent(ArrayItems(s)) <= |inner| + 1
  {
    var inner := TrimBoth(Trim(s), IsBraceOrSpace);
    SplitShape(inner, ',');
    KeptShape(Split(inner, ','));
    ExtentJoin(Split(inner, ','));
  }

  /** Trimming takes more than the two braces when the elements begin or end with one. */
  lemma TrimmedTooFar(parts: seq<string>)
    requires parts != [] && (forall x :: x in parts ==> PlainItem(x)) && !PlainItems(parts)
    ensures |TrimBoth(LiteralOf(parts), IsBraceOrSpace)| < |Join(parts, ',')|
  {
    JoinEnds(parts);
    assert parts[0] in parts && parts[|parts| - 1] in parts;
    BracesTrimmed(Join(parts, ','));
  }

  /** Without its braces, and shorter still if there is something to trim behind one of them. */
  lemma BracesTrimmed(inner: string)
    requires inner != [] && (IsBraceOrSpace(inner[0]) || IsBraceOrSpace(inner[|inner| - 1]))
    ensures |TrimBoth("{" + inner + "}", IsBraceOrSpace)| < |inner|
  {
    var s, rest := "{" + inner + "}", inner + "}";
    assert s[0] == '{' && s[1..] == rest;
    var t := TrimStart(rest, IsBraceOrSpace);
    assert TrimStart(s, IsBraceOrSpace) == t;
    TrimStartShape(rest, IsBraceOrSpace);
    if IsBraceOrSpace(inner[0]) {
      assert rest[0] == inner[0];
      TrimStartShape(rest[1..], IsBraceOrSpace);
      if t != [] {
        assert t[|t| - 1] == '}';
        TrimEndShape(t[..|t| - 1], IsBraceOrSpace);
      }
    } else {
      assert t == rest && rest[|rest| - 1] == '}' && rest[..|rest| - 1] == inner;
      assert TrimEnd(rest, IsBraceOrSpace) == TrimEnd(inner, IsBraceOrSpace);
      TrimEndShape(inner[..|inner| - 1], IsBraceOrSpace);
    }
  }

  /** A Postgres array literal is read back as the elements it was written from exactly when these are plain. */
  lemma ArrayLiteralRoundTrip(parts: seq<string>)
    ensures Braced(LiteralOf(parts))
    ensures ArrayItems(LiteralOf(parts)) == parts <==> PlainItems(parts)
  {
    LiteralBraced(parts);
    if PlainItems(parts) { PlainItemsRead(parts); }
    if ArrayItems(LiteralOf(parts)) == parts {
      ItemsShape(LiteralOf(parts));
      if parts != [] && !PlainItems(parts) {
        ExtentJoin(parts);
        TrimmedTooFar(parts);
      }
    }
  }

  // ---------- White space and braces ----------

  /** The code points with the White_Space property, one by one. */
  const WHITE_SPACE: set<int> := {
    9, 10, 11, 12, 13, 32, 133, 160, 5760, 8192, 8193, 8194, 8195, 8196, 8197, 8198, 8199, 8200, 8201, 8202, 8232, 8233,
    8239, 8287, 12288 }

  lemma WhitespaceExactly(c: char)
    ensures IsWhitespace(c) <==> c as int in WHITE_SPACE
  {
  }

  predicate Blank(s: string) {
    forall i :: 0 <= i < |s| ==> s[i] as int in WHITE_SPACE
  }

  lemma {:induction false} TrimBlankStart(lead: string, s: string)
    requires Blank(lead)
    ensures TrimStart(lead + s, IsWhitespace) == TrimStart(s, IsWhitespace)
  {
    if lead == [] {
      assert lead + s == s;
    } else {
      assert (lead + s)[1..] == lead[1..] + s;
      WhitespaceExactly(lead[0]);
      TrimBlankStart(lead[1..], s);
    }
  }

  lemma {:induction false} TrimBlankEnd(s: string, trail: string)
    requires Blank(trail)
    ensures TrimEnd(s + trail, IsWhitespace) == TrimEnd(s, IsWhitespace)
    decreases |trail|
  {
    if trail == [] {
      assert s + trail == s;
    } else {
      var n := |trail| - 1;
      WhitespaceExactly(trail[n]);
      assert (s + trail)[..|s + trail| - 1] == s + trail[..n] && (s + trail)[|s + trail| - 1] == trail[n];
      TrimBlankEnd(s, trail[..n]);
    }
  }

  lemma TrimPadded(lead: string, s: string, trail: string)
    requires Blank(lead) && Blank(trail) && s != [] && !IsWhitespace(s[0]) && !IsWhitespace(s[|s| - 1])
    ensures Trim(lead + s + trail) == s
  {
    assert lead + s + trail == lead + (s + trail);
    TrimBlankStart(lead, s + trail);
    assert TrimStart(s + trail, IsWhitespace) == s + trail;
    TrimBlankEnd(s, trail);
  }

  lemma {:induction false} TrimStartBlank(s: string)
    ensures var r := TrimStart(s, IsWhitespace); |r| <= |s| && r == s[|s| - |r|..] && Blank(s[..|s| - |r|])
  {
    TrimStartShape(s, IsWhitespace);
    if s != [] && IsWhitespace(s[0]) {
      TrimStartBlank(s[1..]);
      WhitespaceExactly(s[0]);
      var n := |s| - |TrimStart(s, IsWhitespace)|;
      assert s[..n] == [s[0]] + s[1..][..n - 1];
    }
  }

  lemma {:induction false} TrimEndBlank(s: string)
    ensures var r := TrimEnd(s, IsWhitespace); |r| <= |s| && r == s[..|r|] && Blank(s[|r|..])
  {
    TrimEndShape(s, IsWhitespace);
    if s != [] && IsWhitespace(s[|s| - 1]) {
      var front := s[..|s| - 1];
      TrimEndBlank(front);
      WhitespaceExactly(s[|s| - 1]);
      var n := |TrimEnd(s, IsWhitespace)|;
      assert s[n..] == front[n..] + [s[|s| - 1]];
    }
  }

  /** A literal is read as an array exactly when it is white space, a brace, anything, a brace, and white space. */
  lemma BracedExactly(s: string)
    ensures Braced(s) <==>
            exists lead, inner, trail :: Blank(lead) && Blank(trail) && s == lead + ("{" + inner + "}") + trail
  {
    if Braced(s) {
      var r, t := TrimStart(s, IsWhitespace), Trim(s);
      TrimStartBlank(s);
      TrimEndBlank(r);
      var lead, inner, trail := s[..|s| - |r|], t[1..|t| - 1], r[|t|..];
      assert t == "{" + inner + "}";
      assert s == lead + ("{" + inner + "}") + trail;
    }
    if lead, inner, trail :| Blank(lead) && Blank(trail) && s == lead + ("{" + inner + "}") + trail {
      TrimPadded(lead, "{" + inner + "}", trail);
    }
  }

  /** White space around the literal does not matter. */
  lemma PaddedItems(lead: string, inner: string, trail: string)
    requires Blank(lead) && Blank(trail)
    ensures ArrayItems(lead + ("{" + inner + "}") + trail) == ArrayItems("{" + inner + "}")
  {
    TrimPadded(lead, "{" + inner + "}", trail);
    TrimPadded("", "{" + inner + "}", "");
    assert "" + ("{" + inner + "}") + "" == "{" + inner + "}";
    hide TrimBoth, NonEmptyTrimmed, Split;
  }

  predicate BracesOrSpaces(s: string) {
    forall i :: 0 <= i < |s| ==> s[i] == '{' || s[i] == '}' || s[i] == ' '
  }

  lemma {:induction false} TrimBraceStart(lead: string, s: string)
    requires BracesOrSpaces(lead) && s != [] && !BracesOrSpaces(s[..1])
    ensures TrimStart(lead + s, IsBraceOrSpace) == s
  {
    if lead == [] {
      assert lead + s == s && s[..1][0] == s[0];
    } else {
      assert (lead + s)[1..] == lead[1..] + s;
      TrimBraceStart(lead[1..], s);
    }
  }

  lemma {:induction false} TrimBraceEnd(s: string, trail: string)
    requires BracesOrSpaces(trail) && s != [] && !BracesOrSpaces(s[|s| - 1..])
    ensures TrimEnd(s + trail, IsBraceOrSpace) == s
    decreases |trail|
  {
    if trail == [] {
      assert s + trail == s && s[|s| - 1..][0] == s[|s| - 1];
    } else {
      var n := |trail| - 1;
      assert (s + trail)[..|s + trail| - 1] == s + trail[..n] && (s + trail)[|s + trail| - 1] == trail[n];
      TrimBraceEnd(s, trail[..n]);
    }
  }

  lemma TrimBraces(lead: string, core: string, trail: string)
    requires BracesOrSpaces(lead) && BracesOrSpaces(trail)
    requires core != [] && !BracesOrSpaces(core[..1]) && !BracesOrSpaces(core[|core| - 1..])
    ensures TrimBoth(lead + core + trail, IsBraceOrSpace) == core
  {
    assert (core + trail)[..1] == core[..1] && lead + core + trail == lead + (core + trail);
    hide BracesOrSpaces;
    TrimBraceStart(lead, core + trail);
    TrimBraceEnd(core, trail);
  }

  lemma BraceLead(lead: string, trail: string)
    requires BracesOrSpaces(lead) && BracesOrSpaces(trail)
    ensures BracesOrSpaces("{" + lead) && BracesOrSpaces(trail + "}")
  {
  }

  lemma ItemsBetween(s: string, core: string)
    requires s != [] && s[0] == '{' && s[|s| - 1] == '}' && TrimBoth(s, IsBraceOrSpace) == core
    ensures ArrayItems(s) == NonEmptyTrimmed(Split(core, ','))
  {
    TrimPadded("", s, "");
    assert "" + s + "" == s;
    hide TrimBoth, Trim, Split, NonEmptyTrimmed;
  }

  /** Braces and spaces inside, at either end, are dropped with the outer ones, however many: nested arrays lose
      theirs. */
  lemma NestedBraces(lead: string, core: string, trail: string)
    requires BracesOrSpaces(lead) && BracesOrSpaces(trail)
    requires core != [] && !BracesOrSpaces(core[..1]) && !BracesOrSpaces(core[|core| - 1..])
    ensures ArrayItems("{" + lead + core + trail + "}") == NonEmptyTrimmed(Split(core, ','))
  {
    hide *;
    var s := "{" + lead + core + trail + "}";
    assert s == ("{" + lead) + core + (trail + "}");
    BraceLead(lead, trail);
    TrimBraces("{" + lead, core, trail + "}");
    ItemsBetween(s, core);
  }
}
