/** The `startup.nsh` fallback script, the marker it looks for, and where both live on the ESP. */
module StartupScript {
  import opened EspVolume

  // ---------------------------------------------------------------- text

  predicate OccursAt(c: string, s: string, i: nat) {
    i + |s| <= |c| && c[i..i + |s|] == s
  }

  predicate Contains(c: string, s: string) {
    exists i :: 0 <= i <= |c| && OccursAt(c, s, i)
  }

  lemma ContainsMiddle(a: string, s: string, b: string)
    ensures Contains(a + s + b, s)
  {
    assert OccursAt(a + s + b, s, |a|);
  }

  lemma ContainsTransitive(c: string, s: string, u: string)
    requires Contains(c, s) && Contains(s, u)
    ensures Contains(c, u)
  {
    var i :| 0 <= i <= |c| && OccursAt(c, s, i);
    var j :| 0 <= j <= |s| && OccursAt(s, u, j);
    forall k | 0 <= k < |u|
      ensures c[i + j + k] == u[k]
    {
      assert c[i..i + |s|][j + k] == c[i + j + k];
      assert s[j..j + |u|][k] == s[j + k];
    }
    assert c[i + j..i + j + |u|] == u;
    assert OccursAt(c, u, i + j);
  }

  /** The lines, each ended by CRLF. */
  function Script(lines: seq<string>): string {
    if |lines| == 0 then "" else lines[0] + "\r\n" + Script(lines[1..])
  }

  lemma {:induction false} ScriptContains(lines: seq<string>, k: nat)
    requires k < |lines|
    ensures Contains(Script(lines), lines[k])
  {
    var rest := Script(lines[1..]);
    if k == 0 {
      ContainsMiddle("", lines[0], "\r\n" + rest);
      assert "" + lines[0] + ("\r\n" + rest) == Script(lines);
    } else {
      ScriptContains(lines[1..], k - 1);
      ContainsMiddle(lines[0] + "\r\n", rest, "");
      assert lines[0] + "\r\n" + rest + "" == Script(lines);
      ContainsTransitive(Script(lines), rest, lines[k]);
    }
  }

  // ---------------------------------------------------------------- the script

  const STARTUP_NSH_SIGNATURE := "# Written by beskar7-inspector"
  const MARKER_TEXT := "beskar7 deploy marker\r\n"

  /** A file on the mapping of the current round. */
  function OnMapping(path: string): string {
    "FS%i:" + path
  }

  function MarkerFile(m: string): string {
    "\\EFI\\beskar7\\" + m + ".id"
  }

  /** The line that makes a script look for the marker `m`. */
  function ExistLine(m: string): string {
    "if exist " + OnMapping(MarkerFile(m)) + " then"
  }

  /** The line that identifies a script of ours. */
  function SignedLine(m: string): string {
    STARTUP_NSH_SIGNATURE + ": boot the disk provisioned with marker " + m + "."
  }

  function Indent(n: nat, line: string): string {
    if n == 0 then line else " " + Indent(n - 1, line)
  }

  function ScriptLines(m: string, loader: string): seq<string> {
    [
      "@echo -off",
      SignedLine(m),
      "set -v b7found 0",
      "for %i run (0 31)",
      Indent(2, ExistLine(m)),
      Indent(4, "set -v b7found 1"),
      Indent(4, "echo " + Starting(OnMapping(loader))),
      Indent(4, OnMapping(loader)),
      Indent(4, "echo " + CameBack(loader, OnMapping(""))),
      Indent(2, "endif"),
      "endfor",
      "if %b7found% == 0 then",
      Indent(2, "echo " + NotFound(m)),
      "endif"
    ]
  }

  function Starting(file: string): string {
    "beskar7: starting " + file
  }

  function CameBack(loader: string, mapping: string): string {
    "beskar7: " + loader + " on " + mapping + " returned"
  }

  function NotFound(m: string): string {
    "beskar7: no disk with marker " + m + " found, stopping at the Shell prompt"
  }

  /** The script for marker `m` that starts `loader` on the first of 32 mappings that has it. */
  function RenderStartupNsh(m: string, loader: string): string {
    Script(ScriptLines(m, loader))
  }

  /** A script the inspector wrote. */
  predicate Ours(contents: string) {
    Contains(contents, STARTUP_NSH_SIGNATURE)
  }

  /** A script is ours exactly when our signature stands somewhere in it. */
  lemma OursIff(contents: string)
    ensures Ours(contents) <==>
            exists i, j :: 0 <= i <= j <= |contents| && contents[i..j] == "# Written by beskar7-inspector"
  {
    var signature := "# Written by beskar7-inspector";
    assert STARTUP_NSH_SIGNATURE == signature;
    if Ours(contents) {
      var i :| 0 <= i <= |contents| && OccursAt(contents, STARTUP_NSH_SIGNATURE, i);
      assert contents[i..i + |signature|] == signature;
    }
    if i, j :| 0 <= i <= j <= |contents| && contents[i..j] == signature {
      assert j == i + |signature|;
      assert OccursAt(contents, STARTUP_NSH_SIGNATURE, i);
    }
  }

  predicate Names(contents: string, m: string) {
    Contains(contents, ExistLine(m))
  }

  lemma ScriptLinesAt(m: string, loader: string)
    ensures |ScriptLines(m, loader)| == 14
    ensures ScriptLines(m, loader)[1] == SignedLine(m) && ScriptLines(m, loader)[4] == Indent(2, ExistLine(m))
  {
    hide SignedLine, ExistLine, Indent, OnMapping, Starting, CameBack, NotFound;
  }

  lemma SignedLineIsSigned(m: string)
    ensures Contains(SignedLine(m), STARTUP_NSH_SIGNATURE)
  {
    var tail := ": boot the disk provisioned with marker " + m + ".";
    ContainsMiddle("", STARTUP_NSH_SIGNATURE, tail);
    assert "" + STARTUP_NSH_SIGNATURE + tail == SignedLine(m);
  }

  lemma IndentedContains(n: nat, line: string)
    ensures Contains(Indent(n, line), line)
  {
    if n == 0 {
      ContainsMiddle("", line, "");
      assert "" + line + "" == line;
    } else {
      IndentedContains(n - 1, line);
      ContainsMiddle(" ", Indent(n - 1, line), "");
      assert " " + Indent(n - 1, line) + "" == Indent(n, line);
      ContainsTransitive(Indent(n, line), Indent(n - 1, line), line);
    }
  }

  /** What the inspector renders is recognised as its own, and names its marker. */
  lemma RenderedIsOurs(m: string, loader: string)
    ensures Ours(RenderStartupNsh(m, loader)) && Names(RenderStartupNsh(m, loader), m)
  {
    hide Script, Contains, ScriptLines, SignedLine, ExistLine, Indent;
    var lines := ScriptLines(m, loader);
    ScriptLinesAt(m, loader);
    ScriptContains(lines, 1);
    ScriptContains(lines, 4);
    SignedLineIsSigned(m);
    ContainsTransitive(Script(lines), SignedLine(m), STARTUP_NSH_SIGNATURE);
    IndentedContains(2, ExistLine(m));
    ContainsTransitive(Script(lines), lines[4], ExistLine(m));
  }

  // ---------------------------------------------------------------- paths

  const EFI_DIR: Path := ["efi"]
  const MARKER_DIR: Path := ["efi", "beskar7"]
  const ROOT_SCRIPT: Path := ["startup.nsh"]
  const TMP_SCRIPT: Path := ["startup.nsh.tmp"]

  /** Where the Shell looks for a script, in its order: `\EFI\tools`, `\EFI\BOOT`, the root. */
  function ScriptPath(i: nat): Path
    requires i < 3
  {
    if i == 0 then ["efi", "tools", "startup.nsh"]
    else if i == 1 then ["efi", "boot", "startup.nsh"]
    else ROOT_SCRIPT
  }

  function MarkerPath(m: string): Path {
    MARKER_DIR + [Fold(m + ".id")]
  }

  function TmpMarkerPath(m: string): Path {
    MARKER_DIR + [Fold(m + ".id.tmp")]
  }

  /** The file name `n` has the extension `id`. */
  predicate HasIdExtension(n: string) {
    |n| > 3 && n[|n| - 3] == '.' && n[|n| - 2] == 'i' && n[|n| - 1] == 'd'
  }

  /** A `*.id` entry of the marker directory. */
  predicate IsMarker(p: Path) {
    |p| == 3 && p[0] == "efi" && p[1] == "beskar7" && HasIdExtension(p[2])
  }

  /** The markers are the files `\EFI\beskar7\<stem>.id` with a stem that is not empty. */
  lemma IsMarkerIff(p: Path)
    ensures IsMarker(p) <==> exists stem: string :: stem != "" && p == ["efi", "beskar7", stem + ".id"]
  {
    if IsMarker(p) {
      var n := p[2];
      var stem := n[..|n| - 3];
      assert n == stem + ".id";
      assert p == ["efi", "beskar7", stem + ".id"];
    }
    if stem: string :| stem != "" && p == ["efi", "beskar7", stem + ".id"] {
      var n := stem + ".id";
      assert n[|n| - 3] == '.' && n[|n| - 2] == 'i' && n[|n| - 1] == 'd';
    }
  }

  lemma MarkerPathFacts(m: string, n: string)
    ensures |MarkerPath(m)| == 3 && MarkerPath(m) != TmpMarkerPath(n)
    ensures m != "" ==> IsMarker(MarkerPath(m))
    ensures !IsMarker(TmpMarkerPath(n)) && !IsMarker(TMP_SCRIPT)
  {
    var id, tmp := m + ".id", n + ".id.tmp";
    assert id[|id| - 3] == '.' && id[|id| - 2] == 'i' && id[|id| - 1] == 'd' && tmp[|tmp| - 1] == 'p';
    assert MarkerPath(m)[2] == Fold(id) && TmpMarkerPath(n)[2] == Fold(tmp);
  }

  lemma ScriptPathFacts(m: string)
    ensures forall i :: 0 <= i < 3 ==>
              !IsMarker(ScriptPath(i)) && ScriptPath(i) != MarkerPath(m) && ScriptPath(i) != TmpMarkerPath(m)
              && ScriptPath(i) != TMP_SCRIPT
    ensures ScriptPath(0) != ScriptPath(1) && ScriptPath(0) != ScriptPath(2) && ScriptPath(1) != ScriptPath(2)
  {
    assert MarkerPath(m)[1] == "beskar7" && TmpMarkerPath(m)[1] == "beskar7";
    assert ScriptPath(0)[1] != "beskar7" && ScriptPath(1)[1] != "beskar7";
  }
}
