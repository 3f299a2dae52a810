/**
 The import scanner for unsaved buffers (src/parser.rs, `parse_imports_from_lines`): it reads
 `import` lines as text, and is meant to give the entries that the syntax tree gives
 (`import_entry_from_header`, `push_import`).
 */
module Imports {
  import opened Text

  datatype ImportEntry = ImportEntry(fullPath: string, localName: string, isStar: bool)

  // ----- the scanner

  /** `find(p)`, from position `i` on. */
  function Find(s: string, p: string, i: nat): (r: Option<nat>)
    requires i <= |s|
    ensures r.Some? ==> r.value + |p| <= |s|
    decreases |s| - i
  {
    if p <= s[i..] then Some(i) else if i == |s| then None else Find(s, p, i + 1)
  }

  function StripSuffix(s: string, suffix: string): string {
    if EndsWith(s, suffix) then s[..|s| - |suffix|] else s
  }

  /** The entry for the text between `import` and the end of the statement. */
  function ParseClause(text: string): ImportEntry {
    ParseImported(if "static " <= text then TrimStart(text[7..]) else text)
  }

  function ParseImported(rest: string): ImportEntry {
    var isStar := EndsWith(rest, ".*");
    var at := Find(rest, " as ", 0);
    var pathPart := if at.Some? then rest[..at.value] else rest;
    var fullPath := if isStar then StripSuffix(pathPart, ".*") else pathPart;
    var localName := if isStar then "*" else if at.Some? then Trim(rest[at.value + 4..]) else LastSegment(fullPath);
    ImportEntry(fullPath, localName, isStar)
  }

  /** What is left of the text behind `import` without its comment. */
  function StripComment(text: string): string {
    match Find(text, "//", 0)
    case Some(ci) => TrimEnd(text[..ci])
    case None => text
  }

  function ParseLine(line: string): Option<ImportEntry> {
    var trimmed := TrimStart(line);
    if !("import " <= trimmed) then None
    else
      var rest := StripComment(Trim(trimmed[7..]));
      if rest == "" then None else Some(ParseClause(TrimEnd(TrimSemicolons(rest))))
  }

  function ParseAll(lines: seq<string>): seq<ImportEntry> {
    if lines == [] then []
    else (match ParseLine(lines[0]) case Some(e) => [e] case None => []) + ParseAll(lines[1..])
  }

  method ParseImportsFromLines(lines: seq<string>) returns (imports: seq<ImportEntry>)
    ensures imports == ParseAll(lines)
  {
    hide ParseLine;
    imports := [];
    for i := 0 to |lines|
      invariant imports + ParseAll(lines[i..]) == ParseAll(lines)
    {
      assert lines[i..][1..] == lines[i + 1..];
      Regroup(imports, match ParseLine(lines[i]) case Some(e) => [e] case None => [], ParseAll(lines[i + 1..]));
      match ParseLine(lines[i])
      case Some(e) =>
        imports := imports + [e];
      case None =>
    }
  }

  // ----- import lines as they are written

  /** What is imported; a renaming has white space before and after `as`. */
  datatype Target = Plain | Star | Alias(before: string, after: string, name: string)

  /** An import statement with its layout: white space, semicolons and a comment. */
  datatype Statement = Statement(
    indent: string, pad: string, isStatic: bool, staticPad: string, path: string, target: Target,
    endPad: string, semicolons: string, commentPad: string, comment: Option<string>)

  /** The entry the syntax tree gives for the same import. */
  function FromTree(s: Statement): ImportEntry {
    ImportEntry(
      s.path, match s.target case Star => "*" case Alias(_, _, name) => name case Plain => LastSegment(s.path), s.target.Star?)
  }

  function Clause(s: Statement): string {
    (if s.isStatic then "static" + s.staticPad else "") + Bare(s)
  }

  function Bare(s: Statement): string {
    s.path + match s.target case Plain => "" case Star => ".*" case Alias(before, after, name) => Renaming(before, after, name)
  }

  function Renaming(before: string, after: string, name: string): string {
    before + ("as" + (after + name))
  }

  function Print(s: Statement): string {
    s.indent + "import" + s.pad + Clause(s) + s.endPad + s.semicolons + s.commentPad
    + match s.comment case None => "" case Some(c) => "//" + c
  }

  predicate Name(s: string) {
    s != "" && forall i | 0 <= i < |s| :: !IsSpace(s[i]) && s[i] != '/' && s[i] != ';' && s[i] != '*'
  }

  predicate All(s: string, c: char) {
    forall i | 0 <= i < |s| :: s[i] == c
  }

  /** White space that separates words. */
  predicate Gap(s: string) {
    s != "" && AllSpace(s)
  }

  /** A statement of the language, in any layout. */
  predicate StatementOk(s: Statement) {
    && AllSpace(s.indent) && Gap(s.pad) && (s.isStatic ==> Gap(s.staticPad)) && AllSpace(s.endPad) && AllSpace(s.commentPad)
    && All(s.semicolons, ';') && Name(s.path)
    && (s.target.Alias? ==> Gap(s.target.before) && Gap(s.target.after) && Name(s.target.name))
  }

  // ----- what the scanner makes of them

  /** A path `static` that is renamed is taken for the keyword. */
  predicate LosesPath(s: Statement) {
    !s.isStatic && s.path == "static" && s.target.Alias? && s.target.before != "" && s.target.before[0] == ' '
  }

  /** The scanner sees the renaming: there is a blank right before and right behind `as`. */
  predicate SeesAlias(before: string, after: string) {
    before != "" && before[|before| - 1] == ' ' && after != "" && after[0] == ' '
  }

  /** The scanner sees the keywords: a blank follows each of them. */
  predicate SeesKeywords(s: Statement) {
    && (s.pad != "" && s.pad[0] == ' ')
    && (s.isStatic ==> s.staticPad != "" && s.staticPad[0] == ' ')
  }

  /**
   The entry that is read behind the keywords.  A renaming that is seen leaves the other white space before `as` on
   the path; one that is not seen is taken for a part of the path.
   */
  function Scanned(s: Statement): ImportEntry {
    match s.target
    case Alias(before, after, name) =>
      if LosesPath(s) then
        ImportEntry("as" + (after + name), LastSegment("as" + (after + name)), false)
      else if SeesAlias(before, after) then
        ImportEntry(s.path + before[..|before| - 1], name, false)
      else
        ImportEntry(Bare(s), LastSegment(Bare(s)), false)
    case _ => FromTree(s)
  }

  /** Blanks where the scanner looks for them, and exactly one before `as`. */
  predicate WellSpaced(s: Statement) {
    && SeesKeywords(s)
    && (s.target.Alias? ==> s.target.before == " " && s.target.after != "" && s.target.after[0] == ' ' && !LosesPath(s))
  }

  // ----- searching

  lemma {:induction false} FindFirst(s: string, p: string, i: nat, at: nat)
    requires i <= at && at + |p| <= |s| && p <= s[at..]
    requires forall k | i <= k < at :: !(p <= s[k..])
    ensures Find(s, p, i) == Some(at)
    decreases at - i
  {
    if i < at {
      FindFirst(s, p, i + 1, at);
    }
  }

  lemma {:induction false} FindNothing(s: string, p: string, i: nat)
    requires i <= |s| && forall k | i <= k <= |s| :: !(p <= s[k..])
    ensures Find(s, p, i) == None
    decreases |s| - i
  {
    if i < |s| {
      FindNothing(s, p, i + 1);
    }
  }

  // ----- the clause

  lemma NoBlank(text: string)
    requires forall i | 0 <= i < |text| :: text[i] != ' '
    ensures Find(text, " as ", 0) == None
  {
    forall k | 0 <= k <= |text| ensures !(" as " <= text[k..]) {
      if k < |text| {
        assert text[k..][0] == text[k];
      }
    }
    FindNothing(text, " as ", 0);
  }

  /** Without a renaming. */
  lemma PlainClause(path: string)
    requires Name(path)
    ensures Find(path, " as ", 0) == None && Find(path + ".*", " as ", 0) == None
    ensures !EndsWith(path, ".*") && EndsWith(path + ".*", ".*") && StripSuffix(path + ".*", ".*") == path
  {
    NoBlank(path);
    NoBlank(path + ".*");
    assert path[|path| - 1] != '*';
    assert (path + ".*")[|path|..] == ".*" && (path + ".*")[..|path|] == path;
  }

  /** In front of the last blank before `as`, or when there is none, the mark is nowhere. */
  lemma MarkOnly(path: string, before: string, after: string, name: string, k: nat)
    requires (path == "" || Name(path)) && AllSpace(before) && Gap(after) && Name(name)
    requires k <= |path + Renaming(before, after, name)|
    requires " as " <= (path + Renaming(before, after, name))[k..]
    ensures k == |path| + |before| - 1 && SeesAlias(before, after)
  {
    var text, n := path + Renaming(before, after, name), |path| + |before|;
    assert text[k..][0] == text[k] && text[k..][1] == text[k + 1] && text[k..][2] == text[k + 2] && text[k..][3] == text[k + 3];
    assert text[n] == 'a' && text[n + 1] == 's';
    assert forall j | 0 <= j < |after| :: text[n + 2 + j] == after[j];
    assert forall j | 0 <= j < |name| :: text[n + 2 + |after| + j] == name[j];
    assert forall j | 0 <= j < |before| :: text[|path| + j] == before[j];
    assert forall j | 0 <= j < |path| :: text[j] == path[j];
  }

  lemma AliasParts(path: string, before: string, after: string, name: string)
    requires SeesAlias(before, after)
    ensures var text, at := path + Renaming(before, after, name), |path| + |before| - 1;
      && text[..at] == path + before[..|before| - 1]
      && at + 4 <= |text| && text[at + 4..] == after[1..] + name
  {
  }

  lemma AliasMark(path: string, before: string, after: string, name: string)
    requires SeesAlias(before, after)
    ensures var text, at := path + Renaming(before, after, name), |path| + |before| - 1;
      at + 4 <= |text| && " as " <= text[at..]
  {
    var text, at := path + Renaming(before, after, name), |path| + |before| - 1;
    assert text[at..][..4] == " as ";
  }

  /** Searching from `i` on, up to the blank before `as`. */
  lemma {:induction false} AliasSeen(path: string, before: string, after: string, name: string, i: nat)
    requires (path == "" || Name(path)) && AllSpace(before) && Gap(after) && Name(name) && SeesAlias(before, after)
    requires i < |path| + |before|
    ensures var text := path + Renaming(before, after, name);
      i <= |text| && Find(text, " as ", i) == Some(|path| + |before| - 1)
    decreases |path| + |before| - i
  {
    var text, at := path + Renaming(before, after, name), |path| + |before| - 1;
    AliasMark(path, before, after, name);
    hide Renaming, AllSpace, Gap, Name, SeesAlias;
    if i < at {
      NoMarkAt(path, before, after, name, i);
      AliasSeen(path, before, after, name, i + 1);
    }
  }

  lemma {:induction false} AliasUnseen(path: string, before: string, after: string, name: string, i: nat)
    requires (path == "" || Name(path)) && AllSpace(before) && Gap(after) && Name(name) && !SeesAlias(before, after)
    requires i <= |path + Renaming(before, after, name)|
    ensures Find(path + Renaming(before, after, name), " as ", i) == None
    decreases |path + Renaming(before, after, name)| - i
  {
    hide Renaming, AllSpace, Gap, Name, SeesAlias;
    NoMarkAt(path, before, after, name, i);
    if i < |path + Renaming(before, after, name)| {
      AliasUnseen(path, before, after, name, i + 1);
    }
  }

  lemma NoMarkAt(path: string, before: string, after: string, name: string, k: nat)
    requires (path == "" || Name(path)) && AllSpace(before) && Gap(after) && Name(name)
    requires k <= |path + Renaming(before, after, name)| && (k != |path| + |before| - 1 || !SeesAlias(before, after))
    ensures !(" as " <= (path + Renaming(before, after, name))[k..])
  {
    hide *;
    if " as " <= (path + Renaming(before, after, name))[k..] {
      MarkOnly(path, before, after, name, k);
    }
  }

  lemma AliasNotStar(path: string, before: string, after: string, name: string)
    requires Name(name)
    ensures !EndsWith(path + Renaming(before, after, name), ".*")
  {
    var text := path + Renaming(before, after, name);
    assert text[|text| - 1] == name[|name| - 1];
  }

  lemma ImportedParsed(s: Statement)
    requires StatementOk(s) && !LosesPath(s)
    ensures ParseImported(Bare(s)) == Scanned(s)
  {
    hide Find, EndsWith, StripSuffix, LastSegment, Trim, Renaming;
    match s.target
    case Alias(before, after, name) =>
      AliasNotStar(s.path, before, after, name);
      if SeesAlias(before, after) {
        AliasSeen(s.path, before, after, name, 0);
        AliasParts(s.path, before, after, name);
        TrimName(after[1..], name);
      } else {
        AliasUnseen(s.path, before, after, name, 0);
      }
    case Plain =>
      PlainClause(s.path);
      assert s.path + "" == s.path;
    case Star => PlainClause(s.path);
  }

  /** The renaming alone, when its path has been taken for a keyword. */
  lemma LostParsed(before: string, after: string, name: string)
    requires Gap(after) && Name(name)
    ensures var text := "as" + (after + name); ParseImported(text) == ImportEntry(text, LastSegment(text), false)
  {
    hide Find, EndsWith, StripSuffix, LastSegment, Trim;
    AliasNotStar("", "", after, name);
    AliasUnseen("", "", after, name, 0);
    assert "" + Renaming("", after, name) == "as" + (after + name);
  }

  lemma NotStatic(s: Statement)
    requires StatementOk(s) && !s.isStatic && !LosesPath(s)
    ensures !("static " <= Bare(s))
  {
    var text := Bare(s);
    if |s.path| < 7 {
      if s.target.Alias? {
        assert text[|s.path|] == s.target.before[0];
        assert |s.path| == 6 ==> text[..6] == s.path && "static "[..6] == "static";
      }
      assert s.target.Star? ==> text[|s.path|] == '.';
    } else {
      assert text[6] == s.path[6];
    }
  }

  /** Behind a keyword and its white space, the clause is what is left. */
  lemma StaticDropped(pad: string, text: string)
    requires Gap(pad) && pad[0] == ' ' && text != "" && !IsSpace(text[0])
    ensures ParseClause("static" + pad + text) == ParseImported(text)
  {
    hide ParseImported;
    var c := "static" + pad + text;
    assert pad == " " + pad[1..];
    assert c == "static " + (pad[1..] + text);
    assert c[7..] == pad[1..] + text;
    TrimStartPadded(pad[1..], text);
  }

  lemma LostClause(s: Statement)
    requires StatementOk(s) && LosesPath(s)
    ensures ParseClause(Clause(s)) == Scanned(s)
  {
    var before, after, name := s.target.before, s.target.after, s.target.name;
    LostParsed(before, after, name);
    Regroup("static", before, "as" + (after + name));
    assert Clause(s) == Bare(s);
    hide ParseClause, ParseImported, LastSegment, Clause;
    StaticDropped(before, "as" + (after + name));
  }

  lemma ClauseParsed(s: Statement)
    requires StatementOk(s) && (s.isStatic ==> s.staticPad[0] == ' ')
    ensures ParseClause(Clause(s)) == Scanned(s)
  {
    if LosesPath(s) {
      LostClause(s);
    } else {
      ImportedParsed(s);
      hide ParseImported, Scanned;
      if s.isStatic {
        assert Bare(s)[0] == s.path[0];
        hide ParseClause, Bare;
        StaticDropped(s.staticPad, Bare(s));
      } else {
        NotStatic(s);
        hide Bare;
        assert Clause(s) == Bare(s);
      }
    }
  }

  /** A keyword `static` that is not followed by a blank stays in the path, with its white space. */
  lemma StaticMisread(s: Statement)
    requires StatementOk(s) && s.isStatic && s.staticPad[0] != ' '
    ensures "static" + [s.staticPad[0]] <= ParseClause(Clause(s)).fullPath
  {
    hide Bare, LastSegment, Trim, Find, StripSuffix, EndsWith;
    var c := Clause(s);
    assert c[..7] == "static" + [s.staticPad[0]];
    assert c[6] == c[..7][6] && forall i | 0 <= i < 6 :: c[i] == "static"[i];
    var at := Find(c, " as ", 0);
    FoundThere(c, " as ", 0);
    if at.Some? {
      assert c[at.value..][0] == c[at.value];
      assert at.value > 6;
      StripKeeps(c[..at.value]);
    }
    StripKeeps(c);
  }

  lemma StripKeeps(t: string)
    requires |t| > 6 && IsSpace(t[6])
    ensures t[..7] <= StripSuffix(t, ".*")
  {
    if EndsWith(t, ".*") {
      assert t[|t| - 2..][0] == t[|t| - 2] && t[|t| - 2..][1] == t[|t| - 1];
    }
  }

  lemma {:induction false} FoundThere(s: string, p: string, i: nat)
    requires i <= |s|
    ensures Find(s, p, i).Some? ==> p <= s[Find(s, p, i).value..]
    decreases |s| - i
  {
    if i < |s| {
      FoundThere(s, p, i + 1);
    }
  }

  lemma TrimName(pad: string, name: string)
    requires AllSpace(pad) && Name(name)
    ensures Trim(pad + name) == name
  {
    TrimStartPadded(pad, name);
    TrimEndPadded(name, "");
    assert name + "" == name;
  }

  // ----- the line

  predicate NoSlash(s: string) {
    '/' !in s
  }

  /** A clause neither begins nor ends with white space, and has no slash or final semicolon. */
  lemma ClauseShape(s: Statement)
    requires StatementOk(s)
    ensures var c := Clause(s);
      c != "" && !IsSpace(c[0]) && !IsSpace(c[|c| - 1]) && c[|c| - 1] != ';' && NoSlash(c)
  {
    var text := Bare(s);
    assert text[0] == s.path[0];
    assert match s.target case Plain => text[|text| - 1] == s.path[|s.path| - 1] case Star => text[|text| - 1] == '*'
           case Alias(_, _, name) => text[|text| - 1] == name[|name| - 1];
    assert NoSlash(text);
    var c := Clause(s);
    assert c == (if s.isStatic then "static" + s.staticPad else "") + text;
    assert c[|c| - 1] == text[|text| - 1];
    assert c[0] == if s.isStatic then 's' else text[0];
  }

  lemma {:induction false} SemicolonsTrimmed(c: string, semis: string)
    requires c != "" && c[|c| - 1] != ';' && All(semis, ';')
    ensures TrimSemicolons(c + semis) == c
  {
    if semis == "" {
      assert c + semis == c;
    } else {
      assert (c + semis)[..|c + semis| - 1] == c + semis[..|semis| - 1];
      SemicolonsTrimmed(c, semis[..|semis| - 1]);
    }
  }

  /** Semicolons and the white space before them are taken off the clause. */
  lemma TailTrimmed(c: string, endPad: string, semis: string, after: string)
    requires c != "" && !IsSpace(c[|c| - 1]) && c[|c| - 1] != ';'
    requires AllSpace(endPad) && All(semis, ';') && AllSpace(after)
    ensures TrimEnd(TrimSemicolons(TrimEnd(c + endPad + semis + after))) == c
  {
    hide TrimEnd, TrimSemicolons;
    if semis == "" {
      assert c + endPad + semis + after == c + (endPad + after);
      TrimEndPadded(c, endPad + after);
      SemicolonsTrimmed(c, "");
      assert c + "" == c;
      TrimEndPadded(c, "");
    } else {
      var t := c + endPad + semis;
      assert t[|t| - 1] == ';';
      TrimEndPadded(t, after);
      if endPad == "" {
        assert t == c + semis;
        SemicolonsTrimmed(c, semis);
        TrimEndPadded(c, "");
        assert c + "" == c;
      } else {
        assert (c + endPad)[|c + endPad| - 1] == endPad[|endPad| - 1];
        SemicolonsTrimmed(c + endPad, semis);
        TrimEndPadded(c, endPad);
      }
    }
  }

  /** The text of a statement from its clause on, with the comment stripped. */
  lemma CommentStripped(front: string, comment: Option<string>)
    requires front != "" && !IsSpace(front[0]) && NoSlash(front)
    ensures var text := Trim(front + match comment case None => "" case Some(c) => "//" + c);
      StripComment(text) == TrimEnd(front)
  {
    hide StripComment, NoSlash, TrimEnd;
    match comment
    case None =>
      assert front + "" == front;
      TrimStartPadded("", front);
      assert "" + front == front;
      NoComment(front);
    case Some(c) =>
      assert (front + ("//" + c))[0] == front[0];
      TrimStartPadded("", front + ("//" + c));
      assert "" + (front + ("//" + c)) == front + ("//" + c);
      CommentKept(front, c);
      CommentFound(front, TrimEnd(front + ("//" + c)));
  }

  lemma NoComment(front: string)
    requires NoSlash(front)
    ensures StripComment(TrimEnd(front)) == TrimEnd(front)
  {
    var t := TrimEnd(front);
    forall k | 0 <= k <= |t| ensures !("//" <= t[k..]) {
      if k < |t| {
        assert t[k..][0] == t[k] == front[k];
      }
    }
    FindNothing(t, "//", 0);
  }

  lemma CommentKept(front: string, c: string)
    ensures front + "//" <= TrimEnd(front + ("//" + c))
  {
    var text := front + ("//" + c);
    assert text[|front| + 1] == '/';
    assert text[..|front| + 2] == front + "//";
  }

  lemma CommentFound(front: string, t: string)
    requires NoSlash(front) && front + "//" <= t
    ensures StripComment(t) == TrimEnd(front)
  {
    assert t[..|front|] == (front + "//")[..|front|] == front;
    assert t[|front|..][..2] == (front + "//")[|front|..];
    forall k | 0 <= k < |front| ensures !("//" <= t[k..]) {
      assert t[k..][0] == t[k] == front[k];
    }
    FindFirst(t, "//", 0, |front|);
  }

  /** The line up to the clause, when a blank follows `import`. */
  lemma HeadTrimmed(indent: string, pad: string, text: string)
    requires AllSpace(indent) && Gap(pad) && pad[0] == ' ' && text != "" && !IsSpace(text[0])
    ensures var trimmed := TrimStart(indent + "import" + pad + text);
      "import " <= trimmed && Trim(trimmed[7..]) == Trim(text)
  {
    var rest := "import " + (pad[1..] + text);
    assert pad == " " + pad[1..];
    assert indent + "import" + pad + text == indent + rest;
    TrimStartPadded(indent, rest);
    assert rest[7..] == pad[1..] + text;
    TrimStartPadded(pad[1..], text);
    TrimStartPadded("", text);
    assert "" + text == text;
  }

  /** Any other white space behind `import` hides the statement. */
  lemma HeadHidden(indent: string, pad: string, text: string)
    requires AllSpace(indent) && Gap(pad) && pad[0] != ' '
    ensures ParseLine(indent + "import" + pad + text) == None
  {
    var rest := "import" + pad + text;
    assert indent + "import" + pad + text == indent + rest;
    TrimStartPadded(indent, rest);
    assert rest[6] == pad[0];
    hide TrimStart;
  }

  lemma PrintedParts(a: string, c: string, d: string, e: string, f: string, g: string)
    ensures a + c + d + e + f + g == a + ((c + d + e + f) + g)
  {
  }

  /** Layout and comment are stripped off the clause. */
  lemma LineStripped(s: Statement)
    requires StatementOk(s)
    ensures ParseLine(Print(s)) == if s.pad[0] == ' ' then Some(ParseClause(Clause(s))) else None
  {
    var c := Clause(s);
    ClauseShape(s);
    var cmt := match s.comment case None => "" case Some(x) => "//" + x;
    var front := c + s.endPad + s.semicolons + s.commentPad;
    PrintedParts(s.indent + "import" + s.pad, c, s.endPad, s.semicolons, s.commentPad, cmt);
    FrontShape(c, s.endPad, s.semicolons, s.commentPad);
    hide Clause, ParseClause, Scanned, StripComment, TrimEnd, TrimStart, TrimSemicolons, Trim;
    if s.pad[0] == ' ' {
      HeadTrimmed(s.indent, s.pad, front + cmt);
      CommentStripped(front, s.comment);
      TailTrimmed(c, s.endPad, s.semicolons, s.commentPad);
    } else {
      HeadHidden(s.indent, s.pad, front + cmt);
    }
  }

  /**
   What the scanner reads of a printed statement, whatever its layout: nothing if `import` is not followed by a blank,
   a path that holds the keyword and white space if `static` is not, and `Scanned` otherwise.
   */
  lemma LineParsed(s: Statement)
    requires StatementOk(s)
    ensures s.pad[0] != ' ' ==> ParseLine(Print(s)) == None
    ensures SeesKeywords(s) ==> ParseLine(Print(s)) == Some(Scanned(s))
    ensures s.pad[0] == ' ' && s.isStatic && s.staticPad[0] != ' ' ==>
      ParseLine(Print(s)).Some? && "static" + [s.staticPad[0]] <= ParseLine(Print(s)).value.fullPath
  {
    LineStripped(s);
    hide ParseLine, Print, ParseClause, Scanned, Clause, Bare;
    if SeesKeywords(s) {
      ClauseParsed(s);
    } else if s.pad[0] == ' ' {
      StaticMisread(s);
    }
  }

  lemma {:induction false} OnlySemicolons(semis: string)
    requires All(semis, ';')
    ensures TrimSemicolons(semis) == ""
  {
    if semis != "" {
      OnlySemicolons(semis[..|semis| - 1]);
    }
  }

  /** The keyword with nothing behind it: no entry, but one with an empty path if there is a semicolon. */
  lemma EmptyStatement(indent: string, pad: string, semis: string, commentPad: string, comment: Option<string>)
    requires AllSpace(indent) && AllSpace(pad) && All(semis, ';') && AllSpace(commentPad)
    ensures var cmt := match comment case None => "" case Some(c) => "//" + c;
      ParseLine(indent + ("import " + (pad + (semis + commentPad + cmt))))
      == if semis == "" then None else Some(ImportEntry("", "", false))
  {
    var cmt := match comment case None => "" case Some(c) => "//" + c;
    var behind := pad + (semis + commentPad + cmt);
    TrimStartPadded(indent, "import " + behind);
    assert ("import " + behind)[7..] == behind;
    assert StripComment(Trim(behind)) == semis by {
      BehindKeyword(pad, semis, commentPad, comment);
    }
    hide ParseClause, StripComment, TrimStart, TrimEnd, TrimSemicolons, Trim;
    if semis != "" {
      OnlySemicolons(semis);
      TrimEndPadded("", "");
      assert "" + "" == "";
      EmptyClause();
    }
  }

  lemma BehindKeyword(pad: string, semis: string, commentPad: string, comment: Option<string>)
    requires AllSpace(pad) && All(semis, ';') && AllSpace(commentPad)
    ensures var cmt := match comment case None => "" case Some(c) => "//" + c;
      StripComment(Trim(pad + (semis + commentPad + cmt))) == semis
  {
    var cmt := match comment case None => "" case Some(c) => "//" + c;
    hide StripComment, TrimStart, TrimEnd;
    if semis == "" {
      NothingBehind(pad + commentPad, comment);
      assert pad + (semis + commentPad + cmt) == (pad + commentPad) + cmt;
    } else {
      var front := semis + commentPad;
      assert (front + cmt)[0] == ';' && front[0] == ';';
      TrimStartPadded(pad, front + cmt);
      TrimStartPadded("", front + cmt);
      assert "" + (front + cmt) == front + cmt;
      CommentStripped(front, comment);
      TrimEndPadded(semis, commentPad);
    }
  }

  lemma EmptyClause()
    ensures ParseClause("") == ImportEntry("", "", false)
  {
    assert ""[0..] == "" && Find("", " as ", 0) == None;
  }

  lemma NothingBehind(pad: string, comment: Option<string>)
    requires AllSpace(pad)
    ensures var cmt := match comment case None => "" case Some(c) => "//" + c; StripComment(Trim(pad + cmt)) == ""
  {
    assert ""[0..] == "" && StripComment("") == "";
    hide StripComment, TrimStart, TrimEnd;
    TrimEndPadded("", "");
    assert "" + "" == "";
    match comment
    case None =>
      TrimStartPadded(pad, "");
    case Some(c) =>
      TrimStartPadded(pad, "//" + c);
      CommentKept("", c);
      assert "" + ("//" + c) == "//" + c;
      CommentFound("", TrimEnd("//" + c));
  }

  lemma FrontShape(c: string, endPad: string, semis: string, commentPad: string)
    requires c != "" && !IsSpace(c[0]) && NoSlash(c) && AllSpace(endPad) && AllSpace(commentPad) && All(semis, ';')
    ensures var front := c + endPad + semis + commentPad; front != "" && !IsSpace(front[0]) && NoSlash(front)
  {
    assert NoSlash(endPad) && NoSlash(semis) && NoSlash(commentPad);
  }

  // ----- the main results

  /**
   The scanner reads a printed statement as the syntax tree does if and only if a blank follows each keyword, a
   renaming has exactly one blank before `as` and a blank right behind it, and the renamed path is not `static`.
   So the path of `a.B  as C` is read as `a.B `, and with a tab behind `as` the alias is lost.
   */
  lemma LineRoundTrip(s: Statement)
    requires StatementOk(s)
    ensures ParseLine(Print(s)) == Some(FromTree(s)) <==> WellSpaced(s)
  {
    LineParsed(s);
    hide ParseLine, Print, LastSegment;
    if SeesKeywords(s) {
      if s.target.Alias? {
        AliasRead(s);
      }
    } else if s.pad[0] == ' ' {
      assert !("static" + [s.staticPad[0]] <= s.path) by {
        assert ("static" + [s.staticPad[0]])[6] == s.staticPad[0];
      }
    }
  }

  lemma AliasRead(s: Statement)
    requires StatementOk(s) && s.target.Alias?
    ensures Scanned(s) == FromTree(s) <==> s.target.before == " " && s.target.after[0] == ' ' && !LosesPath(s)
  {
    hide LastSegment;
    var before, after, name := s.target.before, s.target.after, s.target.name;
    if LosesPath(s) {
      assert ("as" + (after + name))[0] == 'a' && s.path[0] == 's';
    } else if SeesAlias(before, after) {
      assert |s.path + before[..|before| - 1]| == |s.path| + |before| - 1;
      assert |before| == 1 ==> before == " " && s.path + before[..0] == s.path;
    } else {
      assert |Bare(s)| > |s.path|;
    }
  }

  /** A line of a file: an import statement, or anything that does not start with `import`. */
  datatype Line = Import(s: Statement) | Other(text: string)

  predicate LineOk(l: Line) {
    match l
    case Import(s) => StatementOk(s) && WellSpaced(s)
    case Other(text) => !("import " <= TrimStart(text))
  }

  function PrintAll(lines: seq<Line>): seq<string> {
    if lines == [] then []
    else [match lines[0] case Import(s) => Print(s) case Other(text) => text] + PrintAll(lines[1..])
  }

  function TreeEntries(lines: seq<Line>): seq<ImportEntry> {
    if lines == [] then []
    else (match lines[0] case Import(s) => [FromTree(s)] case Other(_) => []) + TreeEntries(lines[1..])
  }

  /** A whole file: exactly the imports, in order, each as the syntax tree has it. */
  lemma {:induction false} FileRoundTrip(lines: seq<Line>)
    requires forall l | l in lines :: LineOk(l)
    ensures ParseAll(PrintAll(lines)) == TreeEntries(lines)
  {
    if lines != [] {
      assert lines[0] in lines;
      FileRoundTrip(lines[1..]);
      assert PrintAll(lines)[1..] == PrintAll(lines[1..]);
      if lines[0].Import? {
        LineRoundTrip(lines[0].s);
      }
      hide ParseLine, Print, StatementOk;
    }
  }
}
