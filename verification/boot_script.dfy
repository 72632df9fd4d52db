/** What the fallback script does when the firmware's Shell runs it. */
module BootScript {
  import opened EspSafety
  import opened EspVolume
  import opened Shell
  import opened StartupScript
  import opened Wrappers

  const MAPPINGS: nat := 32

  // ---------------------------------------------------------------- the script as text

  predicate FileChar(c: char) {
    || 'a' <= c <= 'z' || 'A' <= c <= 'Z' || '0' <= c <= '9' || c == '.' || c == '_' || c == '-'
  }

  /** Characters that mean themselves to the Shell, the separator included. */
  predicate Plain(s: string) {
    forall c :: c in s ==> FileChar(c) || c == '\\'
  }

  /** As a random marker, which is sixteen hex digits. */
  predicate PlainName(s: string) {
    forall c :: c in s ==> FileChar(c)
  }

  /** A word that a line is not cut inside of. */
  predicate Solid(w: string) {
    w != "" && ' ' !in w
  }

  function Spaced(ws: seq<string>): string {
    if |ws| == 0 then "" else if |ws| == 1 then ws[0] else ws[0] + " " + Spaced(ws[1..])
  }

  lemma {:induction false} PieceRead(a: string, rest: string, sep: char, word: string)
    requires sep !in a
    ensures PiecesFrom(a + rest, sep, word) == PiecesFrom(rest, sep, word + a)
    decreases |a|
  {
    if |a| == 0 {
      assert a + rest == rest && word + a == word;
    } else {
      var s := a + rest;
      assert s[0] == a[0] && s[1..] == a[1..] + rest && word + [a[0]] + a[1..] == word + a;
      PieceRead(a[1..], rest, sep, word + [a[0]]);
    }
  }

  lemma PieceCut(rest: string, sep: char, word: string)
    ensures PiecesFrom([sep] + rest, sep, word) == Piece(word) + PiecesFrom(rest, sep, "")
  {
    assert ([sep] + rest)[1..] == rest;
  }

  lemma {:induction false} WordsOfSpaced(ws: seq<string>)
    requires forall w :: w in ws ==> Solid(w)
    ensures Words(Spaced(ws)) == ws
  {
    if |ws| > 0 {
      var w := ws[0];
      assert Solid(w) && "" + w == w;
      if |ws| == 1 {
        PieceRead(w, "", ' ', "");
        assert w + "" == w && ws == [w];
      } else {
        PieceRead(w, [' '] + Spaced(ws[1..]), ' ', "");
        assert w + " " + Spaced(ws[1..]) == w + ([' '] + Spaced(ws[1..]));
        PieceCut(Spaced(ws[1..]), ' ', w);
        WordsOfSpaced(ws[1..]);
        assert ws == [w] + ws[1..];
      }
    }
  }

  lemma {:induction false} TrimIndented(n: nat, line: string)
    requires |line| > 0 && line[0] != ' '
    ensures Trim(Indent(n, line)) == line
  {
    if n > 0 {
      assert Indent(n, line)[1..] == Indent(n - 1, line);
      TrimIndented(n - 1, line);
    }
  }

  lemma {:induction false} LineRead(a: string, rest: string, line: string)
    requires '\r' !in a
    ensures LinesFrom(a + rest, line) == LinesFrom(rest, line + a)
    decreases |a|
  {
    if |a| == 0 {
      assert a + rest == rest && line + a == line;
    } else {
      var s := a + rest;
      assert a[0] in a && s[0] == a[0] && s[1..] == a[1..] + rest && line + [a[0]] + a[1..] == line + a;
      LineRead(a[1..], rest, line + [a[0]]);
    }
  }

  /** A script of lines reads back as its lines. */
  lemma {:induction false} LinesOfScript(lines: seq<string>)
    requires forall line :: line in lines ==> '\r' !in line
    ensures LinesFrom(Script(lines), "") == lines
  {
    if |lines| > 0 {
      var line, rest := lines[0], Script(lines[1..]);
      assert line + "\r\n" + rest == line + ("\r\n" + rest);
      LineRead(line, "\r\n" + rest, "");
      assert "" + line == line && ("\r\n" + rest)[2..] == rest;
      LinesOfScript(lines[1..]);
      assert lines == [line] + lines[1..];
    }
  }

  // ---------------------------------------------------------------- the script as a program

  /** A file on the k-th mapping. */
  function On(k: nat, path: string): string {
    "FS" + Decimal(k) + ":" + path
  }

  /** The lines without their indentation. */
  function Trimmed(m: string, loader: string): seq<string> {
    [
      "@echo -off",
      SignedLine(m),
      "set -v b7found 0",
      "for %i run (0 31)",
      ExistLine(m),
      "set -v b7found 1",
      "echo " + Starting(OnMapping(loader)),
      OnMapping(loader),
      "echo " + CameBack(loader, OnMapping("")),
      "endif",
      "endfor",
      "if %b7found% == 0 then",
      "echo " + NotFound(m),
      "endif"
    ]
  }

  /** What is done on a mapping that has the marker. */
  function Found(loader: string): Block {
    Then(Set("b7found", "1", true),
    Then(Echo(Starting(OnMapping(loader))),
    Then(Start(OnMapping(loader)),
    Then(Echo(CameBack(loader, OnMapping(""))), Done))))
  }

  function Round(m: string, loader: string): Block {
    Then(IfExist(OnMapping(MarkerFile(m)), Found(loader)), Done)
  }

  function Program(m: string, loader: string): Block {
    Then(Quiet,
    Then(Set("b7found", "0", true),
    Then(For("%i", 0, 31, Round(m, loader)),
    Then(IfEqual("%b7found%", "0", Then(Echo(NotFound(m)), Done)), Done))))
  }

  /** A marker and a loader that the Shell reads as they are written. */
  predicate Readable(m: string, loader: string) {
    m != "" && loader != "" && PlainName(m) && Plain(loader)
  }

  /** A line of one line that begins with something. */
  predicate OneLine(s: string) {
    '\r' !in s
  }

  lemma Joined(a: string, b: string, c: string)
    requires OneLine(a) && OneLine(b) && OneLine(c)
    ensures OneLine(a + b) && OneLine(a + b + c)
  {
  }

  lemma {:induction false} Indented(n: nat, line: string)
    requires OneLine(line)
    ensures OneLine(Indent(n, line))
  {
    if n > 0 {
      Indented(n - 1, line);
    }
  }

  lemma PlainIsOneLine(s: string)
    requires Plain(s)
    ensures OneLine(s)
  {
  }

  lemma SignedIsLine(m: string)
    requires OneLine(m)
    ensures OneLine(SignedLine(m))
  {
    assert OneLine(STARTUP_NSH_SIGNATURE) && OneLine(": boot the disk provisioned with marker ") && OneLine(".");
    hide OneLine;
    Joined(STARTUP_NSH_SIGNATURE, ": boot the disk provisioned with marker ", m);
    Joined(STARTUP_NSH_SIGNATURE + ": boot the disk provisioned with marker " + m, ".", ".");
  }

  lemma ExistIsLine(m: string)
    requires OneLine(m)
    ensures OneLine(ExistLine(m))
  {
    assert OneLine("if exist ") && OneLine("FS%i:") && OneLine("\\EFI\\beskar7\\");
    assert OneLine(".id") && OneLine(" then");
    hide OneLine;
    Joined("\\EFI\\beskar7\\", m, ".id");
    Joined("FS%i:", MarkerFile(m), ".id");
    Joined("if exist ", OnMapping(MarkerFile(m)), " then");
  }

  lemma NotFoundIsLine(m: string)
    requires OneLine(m)
    ensures OneLine("echo " + NotFound(m))
  {
    assert OneLine("echo ") && OneLine("beskar7: no disk with marker ");
    assert OneLine(" found, stopping at the Shell prompt");
    hide OneLine;
    Joined("beskar7: no disk with marker ", m, " found, stopping at the Shell prompt");
    Joined("echo ", NotFound(m), "echo ");
  }

  lemma LoaderLines(loader: string)
    requires OneLine(loader)
    ensures OneLine(OnMapping(loader)) && OneLine("echo " + Starting(OnMapping(loader)))
    ensures OneLine("echo " + CameBack(loader, OnMapping("")))
  {
    assert OneLine("FS%i:") && OneLine("") && OneLine("echo ") && OneLine("beskar7: ") && OneLine(" on ");
    assert OneLine("beskar7: starting ") && OneLine(" returned");
    hide OneLine;
    Joined("FS%i:", loader, "");
    Joined("FS%i:", "", "");
    Joined("beskar7: starting ", OnMapping(loader), "");
    Joined("echo ", Starting(OnMapping(loader)), "");
    Joined("beskar7: ", loader, " on ");
    Joined("beskar7: " + loader + " on ", OnMapping(""), " returned");
    Joined("echo ", CameBack(loader, OnMapping("")), "");
  }

  lemma FixedLines()
    ensures OneLine("@echo -off") && OneLine("set -v b7found 0") && OneLine("for %i run (0 31)")
    ensures OneLine("set -v b7found 1") && OneLine("endif") && OneLine("endfor") && OneLine("if %b7found% == 0 then")
  {
  }

  lemma FirstLetters(m: string, loader: string)
    ensures forall i :: 0 <= i < |Trimmed(m, loader)| ==> |Trimmed(m, loader)[i]| > 0 && Trimmed(m, loader)[i][0] != ' '
  {
  }

  /** The indentation of the lines. */
  function Indents(): seq<nat> {
    [0, 0, 0, 0, 2, 4, 4, 4, 4, 2, 0, 0, 2, 0]
  }

  lemma NoIndent()
    ensures forall line: string :: Indent(0, line) == line
  {
  }

  lemma LinesAreIndented(m: string, loader: string)
    ensures |ScriptLines(m, loader)| == |Trimmed(m, loader)| == |Indents()|
    ensures forall i :: 0 <= i < |Indents()| ==>
                        ScriptLines(m, loader)[i] == Indent(Indents()[i], Trimmed(m, loader)[i])
  {
    NoIndent();
    hide Indent, SignedLine, ExistLine, OnMapping, Starting, CameBack, NotFound;
  }

  /** The text of the script is cut into its lines. */
  lemma ScriptTrimmed(m: string, loader: string)
    requires Readable(m, loader)
    ensures TrimAll(LinesFrom(RenderStartupNsh(m, loader), "")) == Trimmed(m, loader)
  {
    var (lines, trimmed) := (ScriptLines(m, loader), Trimmed(m, loader));
    LinesAreIndented(m, loader);
    FirstLetters(m, loader);
    TrimmedAreLines(m, loader);
    hide ScriptLines, Trimmed, Trim, Script, LinesFrom, Indents;
    forall i | 0 <= i < |lines|
      ensures OneLine(lines[i]) && Trim(lines[i]) == trimmed[i]
    {
      Indented(Indents()[i], trimmed[i]);
      TrimIndented(Indents()[i], trimmed[i]);
    }
    assert forall line :: line in lines ==> '\r' !in line;
    LinesOfScript(lines);
  }

  lemma TrimmedAreLines(m: string, loader: string)
    requires Readable(m, loader)
    ensures forall i :: 0 <= i < |Trimmed(m, loader)| ==> OneLine(Trimmed(m, loader)[i])
  {
    PlainIsOneLine(m);
    PlainIsOneLine(loader);
    SignedIsLine(m);
    ExistIsLine(m);
    NotFoundIsLine(m);
    LoaderLines(loader);
    FixedLines();
    hide OneLine, SignedLine, ExistLine, Starting, CameBack, NotFound, OnMapping;
  }

  // ---------------------------------------------------------------- parsing

  lemma SolidWords(m: string, loader: string)
    requires Readable(m, loader)
    ensures Solid(OnMapping(MarkerFile(m))) && Solid(OnMapping(loader))
  {
    assert forall c :: c in m || c in loader ==> c != ' ';
  }

  /** The first word of a line and the words behind it. */
  lemma OneWordMore(a: string, rest: string, ws: seq<string>)
    requires Solid(a) && Words(rest) == ws
    ensures Words(a + " " + rest) == [a] + ws
  {
    PieceRead(a, [' '] + rest, ' ', "");
    PieceCut(rest, ' ', a);
    assert "" + a == a && a + " " + rest == a + ([' '] + rest);
  }

  lemma FourWords(a: string, b: string, c: string, d: string)
    requires Solid(a) && Solid(b) && Solid(c) && Solid(d)
    ensures Words(a + " " + (b + " " + (c + " " + d))) == [a, b, c, d]
  {
    WordsOfSpaced([d]);
    OneWordMore(c, d, [d]);
    OneWordMore(b, c + " " + d, [c, d]);
    OneWordMore(a, b + " " + (c + " " + d), [b, c, d]);
  }

  lemma FiveWords(a: string, b: string, c: string, d: string, e: string)
    requires Solid(a) && Solid(b) && Solid(c) && Solid(d) && Solid(e)
    ensures Words(a + " " + (b + " " + (c + " " + (d + " " + e)))) == [a, b, c, d, e]
  {
    FourWords(b, c, d, e);
    OneWordMore(a, b + " " + (c + " " + (d + " " + e)), [b, c, d, e]);
  }

  lemma WordsOfExist(m: string, loader: string)
    requires Readable(m, loader)
    ensures Words(ExistLine(m)) == ["if", "exist", OnMapping(MarkerFile(m)), "then"]
  {
    SolidWords(m, loader);
    var file := OnMapping(MarkerFile(m));
    FourWords("if", "exist", file, "then");
    hide OnMapping, Words;
    assert "if" + " " + ("exist" + " ") == "if exist " && " " + "then" == " then";
    assert "if" + " " + ("exist" + " " + (file + " " + "then")) == "if" + " " + ("exist" + " ") + file + (" " + "then");
  }

  lemma WordsOfStart(m: string, loader: string)
    requires Readable(m, loader)
    ensures Words(OnMapping(loader)) == [OnMapping(loader)]
  {
    SolidWords(m, loader);
    hide OnMapping;
    WordsOfSpaced([OnMapping(loader)]);
  }

  lemma WordsOfReset()
    ensures Words("set -v b7found 0") == ["set", "-v", "b7found", "0"]
  {
    FourWords("set", "-v", "b7found", "0");
    hide Words;
    assert "set" + " " + ("-v" + " " + ("b7found" + " " + "0")) == "set -v b7found 0";
  }

  lemma WordsOfSet()
    ensures Words("set -v b7found 1") == ["set", "-v", "b7found", "1"]
  {
    FourWords("set", "-v", "b7found", "1");
    hide Words;
    assert "set" + " " + ("-v" + " " + ("b7found" + " " + "1")) == "set -v b7found 1";
  }

  lemma WordsOfFor()
    ensures Words("for %i run (0 31)") == ["for", "%i", "run", "(0", "31)"]
  {
    FiveWords("for", "%i", "run", "(0", "31)");
    hide Words;
    assert "for" + " " + ("%i" + " " + ("run" + " " + ("(0" + " " + "31)"))) == "for %i run (0 31)";
  }

  lemma WordsOfIf()
    ensures Words("if %b7found% == 0 then") == ["if", "%b7found%", "==", "0", "then"]
  {
    FiveWords("if", "%b7found%", "==", "0", "then");
    hide Words;
    assert "if" + " " + ("%b7found%" + " " + ("==" + " " + ("0" + " " + "then"))) == "if %b7found% == 0 then";
  }

  /** A line that is the command `c` and opens and closes nothing. */
  predicate IsCommand(line: string, c: Command) {
    && line != "endfor" && line != "endif" && !IsComment(line)
    && !IsFor(Words(line)) && !IsIfExist(Words(line)) && !IsIfEqual(Words(line)) && Simple(line) == Some(c)
  }

  predicate Opens(line: string, ws: seq<string>) {
    && line != "endfor" && line != "endif" && !IsComment(line) && Words(line) == ws
    && (IsFor(ws) || IsIfExist(ws) || IsIfEqual(ws))
  }

  lemma ParseCommand(lines: seq<string>, i: nat, c: Command)
    requires i < |lines| && IsCommand(lines[i], c)
    ensures ParseBlock(lines, i) == Behind(c, ParseBlock(lines, i + 1))
  {
    hide Words, Simple, IsFor, IsIfExist, IsIfEqual, IsComment;
  }

  lemma ParseOpened(lines: seq<string>, i: nat, ws: seq<string>, body: Block, end: nat)
    requires i < |lines| && Opens(lines[i], ws) && ParseBlock(lines, i + 1) == Some((body, end)) && end < |lines|
    requires lines[end] == if IsFor(ws) then "endfor" else "endif"
    ensures ParseBlock(lines, i) == Behind(Opened(ws, body), ParseBlock(lines, end + 1))
  {
    hide Words, IsFor, IsIfExist, IsIfEqual, IsComment, Opened;
  }

  lemma ParseClosed(lines: seq<string>, i: nat)
    requires i <= |lines| && (i == |lines| || lines[i] == "endfor" || lines[i] == "endif")
    ensures ParseBlock(lines, i) == Some((Done, i))
  {
  }

  lemma SetIsCommand()
    ensures IsCommand("set -v b7found 0", Set("b7found", "0", true))
    ensures IsCommand("set -v b7found 1", Set("b7found", "1", true))
  {
    WordsOfReset();
    WordsOfSet();
    hide Words;
  }

  lemma EchoIsCommand(text: string)
    requires |Words("echo " + text)| == 0 || Words("echo " + text)[0] == "echo"
    ensures IsCommand("echo " + text, Echo(text))
  {
    var line := "echo " + text;
    assert line[0] == 'e' && line[1] == 'c' && line[5..] == text && "echo " <= line;
    assert line != "@echo -off";
    hide Words;
  }

  lemma EchoFirstWord(text: string)
    ensures |Words("echo " + text)| > 0 && Words("echo " + text)[0] == "echo"
  {
    PieceRead("echo", [' '] + text, ' ', "");
    PieceCut(text, ' ', "echo");
    assert "echo " + text == "echo" + ([' '] + text) && "" + "echo" == "echo";
  }

  lemma QuietIsCommand()
    ensures IsCommand("@echo -off", Quiet)
  {
    var ws := ["@echo", "-off"];
    WordsOfSpaced(ws);
    assert Spaced(ws) == "@echo -off";
    hide Words;
  }

  lemma StartIsCommand(m: string, loader: string)
    requires Readable(m, loader)
    ensures IsCommand(OnMapping(loader), Start(OnMapping(loader)))
  {
    WordsOfStart(m, loader);
    var line := OnMapping(loader);
    assert line[0] == 'F';
    hide Words, OnMapping;
  }

  lemma ExistOpens(m: string, loader: string)
    requires Readable(m, loader)
    ensures var ws := ["if", "exist", OnMapping(MarkerFile(m)), "then"];
            Opens(ExistLine(m), ws) && !IsFor(ws)
            && forall body :: Opened(ws, body) == IfExist(OnMapping(MarkerFile(m)), body)
  {
    WordsOfExist(m, loader);
    assert ExistLine(m)[0] == 'i';
    hide Words, OnMapping, ExistLine;
  }

  lemma IfOpens()
    ensures var ws := ["if", "%b7found%", "==", "0", "then"];
            Opens("if %b7found% == 0 then", ws) && !IsFor(ws)
            && forall body :: Opened(ws, body) == IfEqual("%b7found%", "0", body)
  {
    WordsOfIf();
    hide Words;
  }

  lemma ForOpens()
    ensures var ws := ["for", "%i", "run", "(0", "31)"];
            Opens("for %i run (0 31)", ws) && IsFor(ws) && forall body :: Opened(ws, body) == For("%i", 0, 31, body)
  {
    WordsOfFor();
    assert "(0"[1..] == "0" && "31)"[..2] == "31" && Number("0") == Some(0);
    assert "31"[..1] == "3" && Number("3") == Some(3) && Number("31") == Some(31);
    hide Words, Number;
  }

  lemma SignedIsComment(m: string)
    ensures IsComment(SignedLine(m)) && SignedLine(m) != "endfor" && SignedLine(m) != "endif"
  {
    assert SignedLine(m)[0] == '#';
    hide SignedLine;
  }

  /** The script is the program. */
  lemma ScriptParses(m: string, loader: string)
    requires Readable(m, loader)
    ensures Parse(RenderStartupNsh(m, loader)) == Some(Program(m, loader))
  {
    ScriptTrimmed(m, loader);
    var lines := Trimmed(m, loader);
    assert |lines| == 14;
    LinesParse(m, loader);
    hide ParseBlock, Trimmed, RenderStartupNsh;
  }

  lemma LinesParse(m: string, loader: string)
    requires Readable(m, loader)
    ensures |Trimmed(m, loader)| == 14 && ParseBlock(Trimmed(m, loader), 0) == Some((Program(m, loader), 14))
  {
    var lines := Trimmed(m, loader);
    TailParses(m, loader);
    RoundParses(m, loader);
    HeadIs(m, loader);
    hide Trimmed, IsCommand, Opens, IsFor, IsComment, ParseBlock, Opened, Round, NotFound;
    ParseOpened(lines, 3, ["for", "%i", "run", "(0", "31)"], Round(m, loader), 10);
    ParseCommand(lines, 2, Set("b7found", "0", true));
    ParseComment(lines, 1);
    ParseCommand(lines, 0, Quiet);
  }

  lemma HeadIs(m: string, loader: string)
    ensures var (lines, ws) := (Trimmed(m, loader), ["for", "%i", "run", "(0", "31)"]);
            && |lines| == 14 && lines[10] == "endfor" && IsCommand(lines[0], Quiet)
            && IsComment(lines[1]) && lines[1] != "endfor" && lines[1] != "endif"
            && IsCommand(lines[2], Set("b7found", "0", true))
            && Opens(lines[3], ws) && IsFor(ws) && forall body :: Opened(ws, body) == For("%i", 0, 31, body)
  {
    QuietIsCommand();
    SignedIsComment(m);
    SetIsCommand();
    ForOpens();
    hide SignedLine, ExistLine, OnMapping, Starting, CameBack, NotFound, IsCommand, Opens, IsFor, IsComment, Opened;
  }

  lemma ParseComment(lines: seq<string>, i: nat)
    requires i < |lines| && IsComment(lines[i]) && lines[i] != "endfor" && lines[i] != "endif"
    ensures ParseBlock(lines, i) == ParseBlock(lines, i + 1)
  {
    hide IsComment;
  }

  /** The lines behind the loop. */
  lemma TailParses(m: string, loader: string)
    requires Readable(m, loader)
    ensures |Trimmed(m, loader)| == 14
    ensures ParseBlock(Trimmed(m, loader), 11) ==
            Some((Then(IfEqual("%b7found%", "0", Then(Echo(NotFound(m)), Done)), Done), 14))
  {
    var lines := Trimmed(m, loader);
    EchoFirstWord(NotFound(m));
    EchoIsCommand(NotFound(m));
    IfOpens();
    hide Words, SignedLine, ExistLine, OnMapping, Starting, CameBack, NotFound, IsCommand, Opens, IsFor, IsComment,
      ParseBlock, Opened;
    ParseClosed(lines, 14);
    ParseClosed(lines, 13);
    ParseCommand(lines, 12, Echo(NotFound(m)));
    ParseOpened(lines, 11, ["if", "%b7found%", "==", "0", "then"], Then(Echo(NotFound(m)), Done), 13);
  }

  /** The lines inside the loop. */
  lemma RoundParses(m: string, loader: string)
    requires Readable(m, loader)
    ensures |Trimmed(m, loader)| == 14 && ParseBlock(Trimmed(m, loader), 4) == Some((Round(m, loader), 10))
  {
    var lines := Trimmed(m, loader);
    RoundIs(m, loader);
    hide Trimmed, OnMapping, Starting, CameBack, MarkerFile, IsCommand, Opens, IsFor, ParseBlock, Opened;
    ParseClosed(lines, 10);
    ParseClosed(lines, 9);
    ParseCommand(lines, 8, Echo(CameBack(loader, OnMapping(""))));
    ParseCommand(lines, 7, Start(OnMapping(loader)));
    ParseCommand(lines, 6, Echo(Starting(OnMapping(loader))));
    ParseCommand(lines, 5, Set("b7found", "1", true));
    ParseOpened(lines, 4, ["if", "exist", OnMapping(MarkerFile(m)), "then"], Found(loader), 9);
  }

  lemma RoundIs(m: string, loader: string)
    requires Readable(m, loader)
    ensures var (lines, ws) := (Trimmed(m, loader), ["if", "exist", OnMapping(MarkerFile(m)), "then"]);
            && |lines| == 14 && lines[10] == "endfor" && lines[9] == "endif"
            && IsCommand(lines[8], Echo(CameBack(loader, OnMapping(""))))
            && IsCommand(lines[7], Start(OnMapping(loader)))
            && IsCommand(lines[6], Echo(Starting(OnMapping(loader))))
            && IsCommand(lines[5], Set("b7found", "1", true))
            && Opens(lines[4], ws) && !IsFor(ws)
            && forall body :: Opened(ws, body) == IfExist(OnMapping(MarkerFile(m)), body)
  {
    EchoFirstWord(Starting(OnMapping(loader)));
    EchoIsCommand(Starting(OnMapping(loader)));
    EchoFirstWord(CameBack(loader, OnMapping("")));
    EchoIsCommand(CameBack(loader, OnMapping("")));
    SetIsCommand();
    StartIsCommand(m, loader);
    ExistOpens(m, loader);
    hide Words, SignedLine, ExistLine, OnMapping, Starting, CameBack, NotFound, IsCommand, Opens, IsFor, Opened;
  }

  // ---------------------------------------------------------------- running

  /** The k-th mapping is there and holds the marker `m`. */
  predicate Marked(w: World, k: nat, m: string) {
    var mapping := w.mapped("FS" + Decimal(k));
    mapping.Some? && FileAt(mapping.value, MarkerPath(m)).Some?
  }

  lemma {:induction false} IndexedPlain(s: string, k: nat)
    requires '%' !in s
    ensures Indexed(s, "%i", k) == s
  {
    if |s| > 0 {
      assert s[0] in s && forall c :: c in s[1..] ==> c in s;
      assert !("%i" <= s);
      IndexedPlain(s[1..], k);
      assert s == [s[0]] + s[1..];
    }
  }

  lemma IndexedChar(c: char, rest: string, k: nat)
    requires c != '%'
    ensures Indexed([c] + rest, "%i", k) == [c] + Indexed(rest, "%i", k)
  {
    var s := [c] + rest;
    assert s[0] == c && s[1..] == rest && "%i"[0] == '%';
  }

  lemma IndexedHere(b: string, k: nat)
    ensures Indexed("%i" + b, "%i", k) == Decimal(k) + Indexed(b, "%i", k)
  {
    var s := "%i" + b;
    assert "%i" <= s && s[2..] == b;
    hide Decimal;
  }

  /** The index in the middle of a text. */
  lemma {:induction false} IndexedAt(a: string, b: string, k: nat)
    requires '%' !in a && '%' !in b
    ensures Indexed(a + ("%i" + b), "%i", k) == a + (Decimal(k) + b)
    decreases |a|
  {
    hide Indexed, Decimal;
    if |a| == 0 {
      IndexedHere(b, k);
      IndexedPlain(b, k);
      assert a + ("%i" + b) == "%i" + b && a + (Decimal(k) + b) == Decimal(k) + b;
    } else {
      assert a[0] in a && a == [a[0]] + a[1..];
      IndexedAt(a[1..], b, k);
      IndexedChar(a[0], a[1..] + ("%i" + b), k);
      Regroup(a, "%i" + b);
      Regroup(a, Decimal(k) + b);
    }
  }

  lemma Regroup(a: string, b: string)
    requires |a| > 0
    ensures a + b == [a[0]] + (a[1..] + b)
  {
  }

  /** In the round for `k` a file on the mapping of the round is one on the k-th mapping. */
  lemma ReadOnMapping(path: string, s: State, k: nat)
    requires '%' !in path && s.index == Some(("%i", k))
    ensures InRound(OnMapping(path), s) == On(k, path) && Read(OnMapping(path), s) == On(k, path)
  {
    IndexedAt("FS", ":" + path, k);
    hide Indexed, Decimal;
    assert "FS" + ("%i" + (":" + path)) == OnMapping(path);
    assert "FS" + (Decimal(k) + (":" + path)) == On(k, path);
    assert On(k, path)[0] == 'F';
  }

  lemma {:induction false} DecimalDigits(n: nat)
    ensures forall c :: c in Decimal(n) ==> '0' <= c <= '9'
  {
    if n >= 10 {
      DecimalDigits(n / 10);
    }
  }

  lemma {:induction false} LocatedAt(name: string, path: string)
    requires ':' !in name
    ensures Located(name + ":" + path) == Some((name, path))
  {
    var file := name + ":" + path;
    if |name| == 0 {
      assert file[0] == ':' && file[1..] == path && name == "";
    } else {
      assert name[0] in name && file[0] == name[0] && file[1..] == name[1..] + ":" + path;
      LocatedAt(name[1..], path);
      assert [name[0]] + name[1..] == name;
    }
  }

  lemma NextPiece(piece: string, rest: string, sep: char)
    requires sep !in piece && piece != ""
    ensures PiecesFrom(piece + ([sep] + rest), sep, "") == [piece] + PiecesFrom(rest, sep, "")
  {
    PieceRead(piece, [sep] + rest, sep, "");
    PieceCut(rest, sep, piece);
    assert "" + piece == piece;
  }

  lemma PathOfMarker(m: string)
    requires '\\' !in m
    ensures PathOf(MarkerFile(m)) == MarkerPath(m)
  {
    var (sep, file) := ('\\', m + ".id");
    PieceCut("EFI" + ([sep] + ("beskar7" + ([sep] + file))), sep, "");
    NextPiece("EFI", "beskar7" + ([sep] + file), sep);
    NextPiece("beskar7", file, sep);
    PieceRead(file, "", sep, "");
    MarkerFileIs(m);
    FoldedDirs();
    FoldedThree("EFI", "beskar7", file);
    hide Fold, PiecesFrom, MarkerFile, Folded;
    assert file + "" == file && "" + file == file;
    ThreePieces("EFI", "beskar7", file);
  }

  lemma MarkerFileIs(m: string)
    ensures MarkerFile(m) == ['\\'] + ("EFI" + (['\\'] + ("beskar7" + (['\\'] + (m + ".id")))))
  {
  }

  lemma FoldedThree(a: string, b: string, c: string)
    ensures Folded([a, b, c]) == [Fold(a), Fold(b), Fold(c)]
  {
    hide Fold;
    assert [a, b, c][1..] == [b, c] && [b, c][1..] == [c] && [c][1..] == [];
    assert Folded([c]) == [Fold(c)];
    assert Folded([b, c]) == [Fold(b)] + [Fold(c)];
  }

  lemma ThreePieces(a: string, b: string, c: string)
    ensures [] + ([a] + ([b] + [c])) == [a, b, c] && [a] + ([b] + [c]) == [a, b, c]
  {
  }

  lemma FoldedDirs()
    ensures Fold("EFI") == "efi" && Fold("beskar7") == "beskar7"
  {
    var (a, b) := (Fold("EFI"), Fold("beskar7"));
    assert a == [a[0], a[1], a[2]] && b == [b[0], b[1], b[2], b[3], b[4], b[5], b[6]];
  }

  lemma PathOfThree(a: string, b: string, c: string)
    requires a != "" && b != "" && c != "" && '\\' !in a && '\\' !in b && '\\' !in c
    ensures PathOf(['\\'] + (a + (['\\'] + (b + (['\\'] + c))))) == [Fold(a), Fold(b), Fold(c)]
  {
    var sep := '\\';
    PieceCut(a + ([sep] + (b + ([sep] + c))), sep, "");
    NextPiece(a, b + ([sep] + c), sep);
    NextPiece(b, c, sep);
    PieceRead(c, "", sep, "");
    FoldedThree(a, b, c);
    hide Fold, PiecesFrom, Folded;
    assert c + "" == c && "" + c == c;
    ThreePieces(a, b, c);
  }

  /** `s` is one component, which reads `l` in lower case. */
  predicate Component(s: string, l: string) {
    s != "" && '\\' !in s && |s| == |l| && forall i :: 0 <= i < |s| ==> LowerChar(s[i]) == l[i]
  }

  lemma FoldedIs(s: string, l: string)
    requires Component(s, l)
    ensures Fold(s) == l && s != "" && '\\' !in s
  {
  }

  lemma PathOfOne(a: string, x: string)
    requires Component(a, x)
    ensures PathOf(['\\'] + a) == [x]
  {
    PieceCut(a, '\\', "");
    PieceRead(a, "", '\\', "");
    FoldedIs(a, x);
    assert a + "" == a && "" + a == a;
    assert PiecesFrom("", '\\', a) == [a] && [] + [a] == [a];
    assert PiecesFrom(['\\'] + a, '\\', "") == [a];
    hide Fold, PiecesFrom;
    FoldedOne(a);
  }

  lemma FoldedOne(a: string)
    ensures Folded([a]) == [Fold(a)]
  {
    hide Fold;
    assert [a][1..] == [] && [Fold(a)] + [] == [Fold(a)];
  }

  lemma PathOfThreeIs(a: string, b: string, c: string, x: string, y: string, z: string)
    requires Component(a, x) && Component(b, y) && Component(c, z)
    ensures PathOf(['\\'] + (a + (['\\'] + (b + (['\\'] + c))))) == [x, y, z]
  {
    FoldedIs(a, x);
    FoldedIs(b, y);
    FoldedIs(c, z);
    hide PathOf, Fold;
    PathOfThree(a, b, c);
  }

  lemma Components()
    ensures Component("EFI", "efi") && Component("tools", "tools") && Component("BOOT", "boot")
    ensures Component("startup.nsh", "startup.nsh")
  {
  }

  /** The scan looks where the Shell looks: in `\EFI\tools`, in `\EFI\BOOT` and in the root. */
  lemma SearchedPaths()
    ensures ScriptPath(0) == PathOf(['\\'] + ("EFI" + (['\\'] + ("tools" + (['\\'] + "startup.nsh")))))
    ensures ScriptPath(1) == PathOf(['\\'] + ("EFI" + (['\\'] + ("BOOT" + (['\\'] + "startup.nsh")))))
    ensures ScriptPath(2) == PathOf(['\\'] + "startup.nsh")
  {
    Components();
    hide PathOf, Component;
    PathOfThreeIs("EFI", "tools", "startup.nsh", "efi", "tools", "startup.nsh");
    PathOfThreeIs("EFI", "BOOT", "startup.nsh", "efi", "boot", "startup.nsh");
    PathOfOne("startup.nsh", "startup.nsh");
  }

  lemma ExistsIsMarked(w: World, k: nat, m: string)
    requires PlainName(m)
    ensures Exists(w, On(k, MarkerFile(m))) <==> Marked(w, k, m)
  {
    DecimalDigits(k);
    PathOfMarker(m);
    assert ':' !in "FS" + Decimal(k);
    LocatedAt("FS" + Decimal(k), MarkerFile(m));
    hide Located, PathOf, MarkerPath, Decimal, MarkerFile;
  }

  lemma BackslashIsNoSign(m: string, loader: string)
    requires Readable(m, loader)
    ensures '%' !in loader && '%' !in MarkerFile(m) && '%' !in m && '\\' !in m
  {
  }

  /** The loader on the k-th mapping takes over for good. */
  predicate Stays(w: World, k: nat, loader: string) {
    !w.comesBack(On(k, loader))
  }

  /** What is seen of a round on a mapping that has the marker. */
  function Attempt(w: World, k: nat, loader: string): seq<Event> {
    [Said(Starting(On(k, loader))), Started(On(k, loader))]
    + if Stays(w, k, loader) then [] else [Said(CameBack(loader, On(k, "")))]
  }

  /** The state behind a round that found the marker. */
  function Tried(w: World, k: nat, loader: string, s: State): State {
    s.(vars := s.vars["b7found" := "1"], events := s.events + Attempt(w, k, loader), gone := Stays(w, k, loader))
  }

  lemma FoundRuns(w: World, k: nat, loader: string, s: State)
    requires Plain(loader) && s.index == Some(("%i", k)) && !s.gone
    ensures Exec(Found(loader), w, s) == Tried(w, k, loader, s)
  {
    var s1 := s.(vars := s.vars["b7found" := "1"]);
    var s2 := s1.(events := s1.events + [Said(Starting(On(k, loader)))]);
    var s3 := s2.(events := s2.events + [Started(On(k, loader))], gone := Stays(w, k, loader));
    SetRuns(w, s, "b7found", "1", k);
    MessagesRead(loader, s1, k);
    assert '%' !in loader;
    ReadOnMapping(loader, s2, k);
    MessagesRead(loader, s3, k);
    assert s3.events == s.events + [Said(Starting(On(k, loader))), Started(On(k, loader))];
    hide InRound, Read, OnMapping, On, Starting, CameBack, Stays;
    var c3 := Then(Echo(CameBack(loader, OnMapping(""))), Done);
    var c2 := Then(Start(OnMapping(loader)), c3);
    var c1 := Then(Echo(Starting(OnMapping(loader))), c2);
    assert Step(Start(OnMapping(loader)), w, s2) == s3.(gone := !w.comesBack(On(k, loader)));
    assert Exec(Found(loader), w, s) == Exec(c1, w, s1);
    assert Exec(c1, w, s1) == Exec(c2, w, s2);
    assert Exec(c2, w, s2) == if s3.gone then s3 else Exec(c3, w, s3);
    assert Exec(c3, w, s3) == s3.(events := s3.events + [Said(CameBack(loader, On(k, "")))]) by {
      assert Exec(Done, w, s3.(events := s3.events + [Said(CameBack(loader, On(k, "")))]))
          == s3.(events := s3.events + [Said(CameBack(loader, On(k, "")))]);
    }
    assert s.events + [Said(Starting(On(k, loader))), Started(On(k, loader))] + [Said(CameBack(loader, On(k, "")))]
        == s.events + ([Said(Starting(On(k, loader))), Started(On(k, loader))] + [Said(CameBack(loader, On(k, "")))]);
    assert s.events + ([Said(Starting(On(k, loader))), Started(On(k, loader))] + []) == s3.events;
  }

  lemma SetRuns(w: World, s: State, name: string, value: string, k: nat)
    requires (s.index.Some? ==> s.index == Some(("%i", k))) && '%' !in value
    ensures Step(Set(name, value, true), w, s) == s.(vars := s.vars[name := value])
  {
    IndexedPlain(value, k);
  }

  /** The two messages of a round, read with its index. */
  lemma MessagesRead(loader: string, s: State, k: nat)
    requires Plain(loader) && s.index == Some(("%i", k))
    ensures InRound(Starting(OnMapping(loader)), s) == Starting(On(k, loader))
    ensures InRound(CameBack(loader, OnMapping("")), s) == CameBack(loader, On(k, ""))
  {
    assert '%' !in loader;
    StartingRead(loader, s, k);
    CameBackRead(loader, s, k);
  }

  lemma StartingRead(loader: string, s: State, k: nat)
    requires '%' !in loader && s.index == Some(("%i", k))
    ensures InRound(Starting(OnMapping(loader)), s) == Starting(On(k, loader))
  {
    assert '%' !in "beskar7: starting FS" && '%' !in ":" + loader;
    IndexedAt("beskar7: starting FS", ":" + loader, k);
    assert "beskar7: starting " + "FS" == "beskar7: starting FS";
    hide Indexed, Decimal;
    assert "beskar7: starting " + ("FS" + ("%i" + (":" + loader))) == "beskar7: starting FS" + ("%i" + (":" + loader));
    assert "beskar7: starting " + ("FS" + (Decimal(k) + (":" + loader)))
        == "beskar7: starting FS" + (Decimal(k) + (":" + loader));
    assert "FS" + ("%i" + (":" + loader)) == OnMapping(loader);
    assert "FS" + (Decimal(k) + (":" + loader)) == On(k, loader);
  }

  lemma CameBackRead(loader: string, s: State, k: nat)
    requires '%' !in loader && s.index == Some(("%i", k))
    ensures InRound(CameBack(loader, OnMapping("")), s) == CameBack(loader, On(k, ""))
  {
    var (before, behind) := ("beskar7: " + loader + " on FS", ": returned");
    assert '%' !in before && '%' !in behind;
    IndexedAt(before, behind, k);
    hide Indexed, Decimal;
    assert " on " + "FS" == " on FS" && ":" + " returned" == ": returned";
    assert before == "beskar7: " + loader + " on " + "FS";
    assert "FS" + ("%i" + ":") == OnMapping("") && "FS" + (Decimal(k) + ":") == On(k, "");
    Recut("beskar7: " + loader + " on ", "FS", "%i", ":", " returned");
    Recut("beskar7: " + loader + " on ", "FS", Decimal(k), ":", " returned");
  }

  lemma Recut(a: string, b: string, c: string, d: string, e: string)
    ensures a + (b + (c + d)) + e == (a + b) + (c + (d + e))
  {
  }

  lemma RoundRuns(w: World, k: nat, m: string, loader: string, s: State)
    requires Readable(m, loader) && s.index == Some(("%i", k)) && !s.gone
    ensures Exec(Round(m, loader), w, s) == if Marked(w, k, m) then Tried(w, k, loader, s) else s
  {
    BackslashIsNoSign(m, loader);
    ReadOnMapping(MarkerFile(m), s, k);
    ExistsIsMarked(w, k, m);
    FoundRuns(w, k, loader, s);
    hide Exists, Marked, Read, OnMapping, On, MarkerFile, Tried, Found, Stays, Readable;
    var c := IfExist(OnMapping(MarkerFile(m)), Found(loader));
    assert Step(c, w, s) == if Marked(w, k, m) then Exec(Found(loader), w, s) else s;
  }

  /** What is seen of the rounds from the one for `k` on: the marked mappings in order, up to one whose loader stays. */
  function Attempts(w: World, k: nat, m: string, loader: string): seq<Event>
    decreases MAPPINGS - k
  {
    if k >= MAPPINGS then []
    else if !Marked(w, k, m) then Attempts(w, k + 1, m, loader)
    else Attempt(w, k, loader) + if Stays(w, k, loader) then [] else Attempts(w, k + 1, m, loader)
  }

  /** Some mapping from the k-th on is marked. */
  predicate SomeMarked(w: World, k: nat, m: string) {
    exists j :: k <= j < MAPPINGS && Marked(w, j, m)
  }

  /** Some marked mapping from the k-th on has a loader that stays. */
  predicate SomeStays(w: World, k: nat, m: string, loader: string) {
    exists j :: k <= j < MAPPINGS && Marked(w, j, m) && Stays(w, j, loader)
  }

  lemma {:induction false} LoopRuns(w: World, k: nat, m: string, loader: string, s: State)
    requires Readable(m, loader) && !s.gone
    ensures var r := Loop("%i", k, 31, Round(m, loader), w, s);
            && r.events == s.events + Attempts(w, k, m, loader) && r.gone == SomeStays(w, k, m, loader)
            && r.vars == (if SomeMarked(w, k, m) then s.vars["b7found" := "1"] else s.vars)
            && r.quiet == s.quiet && r.written == s.written
    decreases MAPPINGS - k
  {
    hide Round, Marked, Stays, Attempt, Readable;
    if k < MAPPINGS {
      var next := s.(index := Some(("%i", k)));
      RoundRuns(w, k, m, loader, next);
      MarkedFrom(w, k, m, loader);
      var after := if Marked(w, k, m) then Tried(w, k, loader, next) else next;
      if !after.gone {
        LoopRuns(w, k + 1, m, loader, after);
        assert s.events + Attempt(w, k, loader) + Attempts(w, k + 1, m, loader)
            == s.events + (Attempt(w, k, loader) + Attempts(w, k + 1, m, loader));
      } else {
        assert Attempt(w, k, loader) + [] == Attempt(w, k, loader);
      }
    } else {
      assert s.events + [] == s.events;
    }
  }

  lemma MarkedFrom(w: World, k: nat, m: string, loader: string)
    requires k < MAPPINGS
    ensures SomeMarked(w, k, m) <==> Marked(w, k, m) || SomeMarked(w, k + 1, m)
    ensures SomeStays(w, k, m, loader) <==> (Marked(w, k, m) && Stays(w, k, loader)) || SomeStays(w, k + 1, m, loader)
  {
    hide Marked, Stays;
  }

  function NotFoundTail(m: string): Block {
    Then(IfEqual("%b7found%", "0", Then(Echo(NotFound(m)), Done)), Done)
  }

  /** The state in which the loop starts, and the one in which it ends. */
  function Looped(w: World, m: string, loader: string): State {
    Loop("%i", 0, 31, Round(m, loader), w, Shell.Fresh().(quiet := true, vars := map["b7found" := "0"])).(index := None)
  }

  lemma ProgramRuns(w: World, m: string, loader: string)
    ensures var s := Looped(w, m, loader);
            Exec(Program(m, loader), w, Shell.Fresh()) == if s.gone then s else Exec(NotFoundTail(m), w, s)
  {
    var s1 := Shell.Fresh().(quiet := true);
    var s2 := s1.(vars := map["b7found" := "0"]);
    SetRuns(w, s1, "b7found", "0", 0);
    var c2 := Then(For("%i", 0, 31, Round(m, loader)), NotFoundTail(m));
    var c1 := Then(Set("b7found", "0", true), c2);
    hide Loop, Round, Read, InRound;
    assert s1.vars["b7found" := "0"] == map["b7found" := "0"];
    assert Step(Quiet, w, Shell.Fresh()) == s1;
    assert Exec(Program(m, loader), w, Shell.Fresh()) == Exec(c1, w, s1);
    assert Exec(c1, w, s1) == Exec(c2, w, s2);
    assert Step(For("%i", 0, 31, Round(m, loader)), w, s2) == Looped(w, m, loader);
  }

  /** Running the script: every event, and whether a loader has taken over. */
  lemma ScriptRuns(w: World, m: string, loader: string)
    requires Readable(m, loader)
    ensures var r := RunScript(RenderStartupNsh(m, loader), w);
            && r.Some? && r.value.gone == SomeStays(w, 0, m, loader)
            && r.value.events == Attempts(w, 0, m, loader)
                                 + (if SomeMarked(w, 0, m) then [] else [Said(NotFound(m))])
            && r.value.quiet && r.value.written == {}
  {
    ScriptParses(m, loader);
    ProgramRuns(w, m, loader);
    LoopRuns(w, 0, m, loader, Shell.Fresh().(quiet := true, vars := map["b7found" := "0"]));
    StaysIsMarked(w, m, loader);
    var s := Looped(w, m, loader);
    hide Parse, Loop, Round, Attempts, SomeMarked, SomeStays, RenderStartupNsh, NotFound, NotFoundTail, Readable,
      Program, Exec;
    assert [] + Attempts(w, 0, m, loader) == Attempts(w, 0, m, loader) == Attempts(w, 0, m, loader) + [];
    if !s.gone {
      FlagRead(s, if SomeMarked(w, 0, m) then "1" else "0");
      TailRuns(w, m, s);
    }
  }

  lemma StaysIsMarked(w: World, m: string, loader: string)
    ensures SomeStays(w, 0, m, loader) ==> SomeMarked(w, 0, m)
  {
    hide Marked, Stays;
  }

  lemma FlagRead(s: State, value: string)
    requires s.index.None? && "b7found" in s.vars && s.vars["b7found"] == value
    ensures Read("%b7found%", s) == value && Read("0", s) == "0"
  {
    var t := "%b7found%";
    assert t[1..|t| - 1] == "b7found";
  }

  lemma TailRuns(w: World, m: string, s: State)
    requires s.index.None? && Read("0", s) == "0"
    ensures Exec(NotFoundTail(m), w, s) ==
            if Read("%b7found%", s) == "0" then s.(events := s.events + [Said(NotFound(m))]) else s
  {
    hide Read, NotFound;
    var echo := Then(Echo(NotFound(m)), Done);
    assert Exec(echo, w, s) == s.(events := s.events + [Said(NotFound(m))]) by {
      assert Step(Echo(NotFound(m)), w, s) == s.(events := s.events + [Said(NotFound(m))]);
    }
  }

  // ---------------------------------------------------------------- what the script is for

  /** The k-th mapping is the first one marked. */
  predicate FirstMarked(w: World, k: nat, m: string) {
    k < MAPPINGS && Marked(w, k, m) && forall j :: 0 <= j < k ==> !Marked(w, j, m)
  }

  /**
   For every set of mappings: of FS0 to FS31, the first whose file system holds `\EFI\beskar7\<m>.id`
   is where the loader is started first, and only marked mappings are ever tried; when none is marked
   nothing is started and the script says so. A loader that stays is the last thing started.
   */
  lemma ScriptStartsMarkedDisk(w: World, m: string, loader: string)
    requires Readable(m, loader)
    ensures RunScript(RenderStartupNsh(m, loader), w).Some?
    ensures var r := RunScript(RenderStartupNsh(m, loader), w).value;
            && r.quiet && r.written == {}
            && (forall f :: Started(f) in r.events ==> exists k :: 0 <= k < 32 && Marked(w, k, m) && f == On(k, loader))
            && (forall k: nat :: FirstMarked(w, k, m) ==>
                  && |r.events| >= 2
                  && r.events[..2] == [Said("beskar7: starting " + On(k, loader)), Started(On(k, loader))]
                  && (!w.comesBack(On(k, loader)) ==> |r.events| == 2 && r.gone))
            && ((forall k :: 0 <= k < 32 ==> !Marked(w, k, m)) ==>
                  && !r.gone
                  && r.events == [Said("beskar7: no disk with marker " + m + " found, stopping at the Shell prompt")])
  {
    MessagesAre(m);
    ScriptRuns(w, m, loader);
    AttemptsAreMarked(w, 0, m, loader);
    var r := RunScript(RenderStartupNsh(m, loader), w).value;
    hide RunScript, RenderStartupNsh, Marked, NotFound, Readable, Attempts, On, Starting;
    forall k: nat | FirstMarked(w, k, m)
      ensures |r.events| >= 2 && r.events[..2] == [Said(Starting(On(k, loader))), Started(On(k, loader))]
      ensures !w.comesBack(On(k, loader)) ==> |r.events| == 2 && r.gone
    {
      AttemptsStart(w, 0, k, m, loader);
      assert SomeMarked(w, 0, m);
      assert Attempts(w, 0, m, loader) + [] == Attempts(w, 0, m, loader);
    }
    if forall k :: 0 <= k < 32 ==> !Marked(w, k, m) {
      NoAttempts(w, 0, m, loader);
      assert [] + [Said(NotFound(m))] == [Said(NotFound(m))];
    }
  }

  lemma MessagesAre(m: string)
    ensures forall file: string :: Starting(file) == "beskar7: starting " + file
    ensures NotFound(m) == "beskar7: no disk with marker " + m + " found, stopping at the Shell prompt"
  {
  }

  lemma {:induction false} AttemptsAreMarked(w: World, k: nat, m: string, loader: string)
    ensures forall f :: Started(f) in Attempts(w, k, m, loader) ==>
              exists j :: 0 <= j < 32 && Marked(w, j, m) && f == On(j, loader)
    decreases MAPPINGS - k
  {
    hide Marked, On, Starting, CameBack;
    if k < MAPPINGS {
      AttemptsAreMarked(w, k + 1, m, loader);
    }
  }

  lemma {:induction false} NoAttempts(w: World, k: nat, m: string, loader: string)
    requires forall j :: k <= j < 32 ==> !Marked(w, j, m)
    ensures Attempts(w, k, m, loader) == [] && !SomeMarked(w, k, m) && !SomeStays(w, k, m, loader)
    decreases MAPPINGS - k
  {
    hide Marked, Stays;
    if k < MAPPINGS {
      NoAttempts(w, k + 1, m, loader);
    }
  }

  lemma {:induction false} AttemptsStart(w: World, i: nat, k: nat, m: string, loader: string)
    requires i <= k < MAPPINGS && Marked(w, k, m) && forall j :: i <= j < k ==> !Marked(w, j, m)
    ensures var events := Attempts(w, i, m, loader);
            && |events| >= 2 && events[..2] == [Said(Starting(On(k, loader))), Started(On(k, loader))]
            && (Stays(w, k, loader) ==> |events| == 2 && SomeStays(w, i, m, loader))
    decreases k - i
  {
    hide Marked, On, Starting, CameBack, Stays;
    if i < k {
      AttemptsStart(w, i + 1, k, m, loader);
      MarkedFrom(w, i, m, loader);
    }
  }

  lemma LoaderAt(w: World, k: nat, loader: string)
    ensures Exists(w, On(k, loader)) <==>
            w.mapped("FS" + Decimal(k)).Some? && FileAt(w.mapped("FS" + Decimal(k)).value, PathOf(loader)).Some?
  {
    DecimalDigits(k);
    assert ':' !in "FS" + Decimal(k);
    LocatedAt("FS" + Decimal(k), loader);
    hide Located, PathOf, Decimal;
  }

  /**
   A host boots from its own disk: when the k-th mapping is a partition that a deploy left, and no
   other mapping holds the marker, the script that stands at its root starts the loader there.
   */
  lemma DeployedDiskBoots(w: World, k: nat, t: Tree, m: string, loader: string)
    requires Readable(m, loader) && HoldsPair(t, m, loader) && k < 32
    requires w.mapped("FS" + Decimal(k)) == Some(t)
    requires forall j :: 0 <= j < 32 && j != k ==> !Marked(w, j, m)
    ensures FileAt(t, ROOT_SCRIPT).Some?
    ensures var r := RunScript(FileAt(t, ROOT_SCRIPT).value, w);
            && r.Some? && |r.value.events| >= 2 && r.value.events[1] == Started(On(k, loader))
            && forall f :: Started(f) in r.value.events ==> f == On(k, loader)
    ensures Exists(w, On(k, loader)) <==> FileAt(t, PathOf(loader)).Some?
  {
    ScriptStartsMarkedDisk(w, m, loader);
    MarkerPathFacts(m, m);
    assert FileAt(t, MarkerPath(m)).Some?;
    hide RunScript, RenderStartupNsh, On, Starting, MarkerPath;
    assert FirstMarked(w, k, m);
    var r := RunScript(FileAt(t, ROOT_SCRIPT).value, w).value;
    assert r.events[1] == r.events[..2][1];
    LoaderAt(w, k, loader);
  }
}
