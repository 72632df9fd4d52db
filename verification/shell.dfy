/**
 The part of the UEFI Shell's script language that the fallback script uses: blocks, the loop over a
 range, `if exist`, `if ==`, `set`, `echo`, comments, and a file name as a command. A script is
 text; this is its meaning.
 */
module Shell {
  import opened EspVolume
  import opened Wrappers

  // ---------------------------------------------------------------- text

  /** The non-empty pieces of `word + s` between separators. */
  function PiecesFrom(s: string, sep: char, word: string): seq<string> {
    if |s| == 0 then Piece(word)
    else if s[0] == sep then Piece(word) + PiecesFrom(s[1..], sep, "")
    else PiecesFrom(s[1..], sep, word + [s[0]])
  }

  function Piece(word: string): seq<string> {
    if word == "" then [] else [word]
  }

  function Words(line: string): seq<string> {
    PiecesFrom(line, ' ', "")
  }

  /** The lines of a text, each ended by CRLF; what stands behind the last CRLF is a line unless it is empty. */
  function LinesFrom(s: string, line: string): seq<string> {
    if |s| == 0 then Piece(line)
    else if |s| >= 2 && s[0] == '\r' && s[1] == '\n' then [line] + LinesFrom(s[2..], "")
    else LinesFrom(s[1..], line + [s[0]])
  }

  function Trim(line: string): string {
    if |line| > 0 && line[0] == ' ' then Trim(line[1..]) else line
  }

  function TrimAll(lines: seq<string>): (r: seq<string>)
    ensures |r| == |lines| && forall i :: 0 <= i < |lines| ==> r[i] == Trim(lines[i])
  {
    if |lines| == 0 then [] else [Trim(lines[0])] + TrimAll(lines[1..])
  }

  function Decimal(n: nat): string {
    (if n < 10 then "" else Decimal(n / 10)) + [('0' as int + n % 10) as char]
  }

  lemma DecimalIs(n: nat)
    ensures n < 10 ==> Decimal(n) == ["0123456789"[n]]
    ensures 10 <= n < 100 ==> Decimal(n) == ["0123456789"[n / 10], "0123456789"[n % 10]]
  {
    DigitIs(n % 10);
    if 10 <= n < 100 {
      DigitIs(n / 10);
      assert Decimal(n / 10) == [('0' as int + n / 10) as char];
    }
  }

  lemma DigitIs(d: nat)
    requires d < 10
    ensures "0123456789"[d] == ('0' as int + d) as char
  {
  }

  /** The number that the digits of `s` stand for. */
  function Number(s: string): Option<nat> {
    if s == "" then None
    else
      var (front, last) := (s[..|s| - 1], s[|s| - 1]);
      if !('0' <= last <= '9') then None
      else if front == "" then Some((last - '0') as nat)
      else match Number(front) case None => None case Some(n) => Some(10 * n + (last - '0') as nat)
  }

  // ---------------------------------------------------------------- commands

  datatype Block = Done | Then(head: Command, rest: Block)

  datatype Command =
    | Quiet
    | Set(name: string, value: string, volatile: bool)
    | Echo(text: string)
    | Exit
    | Start(file: string)
    | For(index: string, first: nat, last: nat, body: Block)
    | IfExist(file: string, body: Block)
    | IfEqual(left: string, right: string, body: Block)

  /** A line that is a command of its own. */
  function Simple(line: string): Option<Command> {
    var ws := Words(line);
    if line == "@echo -off" then Some(Quiet)
    else if "echo " <= line then Some(Echo(line[5..]))
    else if |ws| == 4 && ws[0] == "set" && ws[1] == "-v" then Some(Set(ws[2], ws[3], true))
    else if |ws| == 3 && ws[0] == "set" then Some(Set(ws[1], ws[2], false))
    else if ws == ["exit"] then Some(Exit)
    else if |ws| == 1 then Some(Start(ws[0]))
    else None
  }

  predicate IsComment(line: string) {
    |line| == 0 || line[0] == '#'
  }

  /** `for %x run (first last)` */
  predicate IsFor(ws: seq<string>) {
    && |ws| == 5 && ws[0] == "for" && |ws[1]| == 2 && ws[1][0] == '%' && ws[2] == "run"
    && |ws[3]| > 0 && ws[3][0] == '(' && |ws[4]| > 0 && ws[4][|ws[4]| - 1] == ')'
    && Number(ws[3][1..]).Some? && Number(ws[4][..|ws[4]| - 1]).Some?
  }

  predicate IsIfExist(ws: seq<string>) {
    |ws| == 4 && ws[0] == "if" && ws[1] == "exist" && ws[3] == "then"
  }

  predicate IsIfEqual(ws: seq<string>) {
    |ws| == 5 && ws[0] == "if" && ws[2] == "==" && ws[4] == "then"
  }

  /** A block, and the line that closes it. */
  type Closed = (Block, nat)

  /** The commands from line `i` on, and the line that closes their block, or the end. */
  function ParseBlock(lines: seq<string>, i: nat): (r: Option<Closed>)
    requires i <= |lines|
    ensures r.Some? ==> i <= r.value.1 <= |lines|
    decreases |lines| - i
  {
    if i == |lines| || lines[i] == "endfor" || lines[i] == "endif" then Some((Done, i))
    else if IsComment(lines[i]) then ParseBlock(lines, i + 1)
    else
      var ws := Words(lines[i]);
      if IsFor(ws) || IsIfExist(ws) || IsIfEqual(ws) then
        var inner := ParseBlock(lines, i + 1);
        if inner.None? || inner.value.1 == |lines| then None
        else
          var (body, end) := inner.value;
          if lines[end] != (if IsFor(ws) then "endfor" else "endif") then None
          else Behind(Opened(ws, body), ParseBlock(lines, end + 1))
      else
        match Simple(lines[i])
        case None => None
        case Some(c) => Behind(c, ParseBlock(lines, i + 1))
  }

  /** The command that the words `ws` open, around `body`. */
  function Opened(ws: seq<string>, body: Block): Command
    requires IsFor(ws) || IsIfExist(ws) || IsIfEqual(ws)
  {
    if IsFor(ws) then For(ws[1], Number(ws[3][1..]).value, Number(ws[4][..|ws[4]| - 1]).value, body)
    else if IsIfExist(ws) then IfExist(ws[2], body)
    else IfEqual(ws[1], ws[3], body)
  }

  function Behind(c: Command, rest: Option<Closed>): Option<Closed> {
    if rest.None? then None else Some((Then(c, rest.value.0), rest.value.1))
  }

  /** The program that a text is; None when it is none. */
  function Parse(text: string): Option<Block> {
    var lines := TrimAll(LinesFrom(text, ""));
    match ParseBlock(lines, 0)
    case None => None
    case Some((block, end)) => if end == |lines| then Some(block) else None
  }

  // ---------------------------------------------------------------- meaning

  datatype Event = Said(text: string) | Started(file: string)

  /** The file systems by mapping name, and whether a started file comes back to the Shell. */
  datatype World = World(mapped: string -> Option<Tree>, comesBack: string -> bool)

  /** `written` holds the variables that were set to outlast a reset. */
  datatype State = State(vars: map<string, string>, index: Option<(string, nat)>, quiet: bool, written: set<string>,
                         events: seq<Event>, gone: bool)

  /** Every occurrence of the loop's index variable replaced. */
  function Indexed(s: string, x: string, n: nat): string
    requires |x| > 0
  {
    if |s| == 0 then ""
    else if x <= s then Decimal(n) + Indexed(s[|x|..], x, n)
    else [s[0]] + Indexed(s[1..], x, n)
  }

  /** A text with the index replaced. */
  function InRound(t: string, s: State): string {
    if s.index.Some? && s.index.value.0 != "" then Indexed(t, s.index.value.0, s.index.value.1) else t
  }

  /** A word as the Shell reads it: the index replaced, and then a variable by its value. */
  function Read(w: string, s: State): string {
    var t := InRound(w, s);
    if |t| >= 2 && t[0] == '%' && t[|t| - 1] == '%' && t[1..|t| - 1] in s.vars then s.vars[t[1..|t| - 1]] else t
  }

  /** The mapping name in front of the first colon, and the path behind it. */
  function Located(file: string): Option<(string, string)> {
    if |file| == 0 then None
    else if file[0] == ':' then Some(("", file[1..]))
    else match Located(file[1..]) case None => None case Some((name, path)) => Some(([file[0]] + name, path))
  }

  function Folded(pieces: seq<string>): Path {
    if |pieces| == 0 then [] else [Fold(pieces[0])] + Folded(pieces[1..])
  }

  /** A path of the Shell, which separates by backslashes and ignores case. */
  function PathOf(text: string): Path {
    Folded(PiecesFrom(text, '\\', ""))
  }

  predicate Exists(w: World, file: string) {
    var at := Located(file);
    at.Some? && w.mapped(at.value.0).Some? && FileAt(w.mapped(at.value.0).value, PathOf(at.value.1)).Some?
  }

  function Exec(b: Block, w: World, s: State): State
    decreases b, 1, 0
  {
    match b
    case Done => s
    case Then(c, rest) =>
      var next := Step(c, w, s);
      if next.gone then next else Exec(rest, w, next)
  }

  function Step(c: Command, w: World, s: State): State
    decreases c, 0, 0
  {
    match c
    case Quiet => s.(quiet := true)
    case Set(name, value, volatile) =>
      s.(vars := s.vars[name := Read(value, s)], written := if volatile then s.written else s.written + {name})
    case Echo(text) => s.(events := s.events + [Said(InRound(text, s))])
    case Exit => s.(gone := true)
    case Start(file) =>
      s.(events := s.events + [Started(Read(file, s))], gone := !w.comesBack(Read(file, s)))
    case For(x, first, last, body) => Loop(x, first, last, body, w, s).(index := s.index)
    case IfExist(file, body) => if Exists(w, Read(file, s)) then Exec(body, w, s) else s
    case IfEqual(left, right, body) => if Read(left, s) == Read(right, s) then Exec(body, w, s) else s
  }

  /** The rounds from the one for `k` on. */
  function Loop(x: string, k: nat, last: nat, body: Block, w: World, s: State): State
    decreases body, 2, if k > last then 0 else last - k + 1
  {
    if k > last then s
    else
      var next := Exec(body, w, s.(index := Some((x, k))));
      if next.gone then next else Loop(x, k + 1, last, body, w, next)
  }

  /** The Shell as it starts a script. */
  function Fresh(): State {
    State(map[], None, false, {}, [], false)
  }

  function RunScript(text: string, w: World): Option<State> {
    match Parse(text) case None => None case Some(b) => Some(Exec(b, w, Fresh()))
  }
}
