/** The shell statements the operations emit, and the string handling
    (`trim`, newline joining) used to assemble several of them. */
module ShellText {

  /** The shell dialect the statements are written for. Only global aliases
      depend on it, and nothing in this model does. */
  datatype ShellType = Bash | Zsh

  /** `format!("alias {}='{}'", name, command)`. */
  function AliasLine(name: string, command: string): string {
    "alias " + name + "='" + command + "'"
  }

  /** `format!("unalias '{}'", name)`. */
  function UnaliasLine(name: string): string {
    "unalias '" + name + "'"
  }

  /** The characters Rust's `char::is_whitespace` accepts (Unicode White_Space). */
  predicate IsWhitespace(c: char) {
    || ('\U{0009}' <= c <= '\U{000D}') || c == '\U{0020}' || c == '\U{0085}' || c == '\U{00A0}'
    || c == '\U{1680}' || ('\U{2000}' <= c <= '\U{200A}') || c == '\U{2028}' || c == '\U{2029}'
    || c == '\U{202F}' || c == '\U{205F}' || c == '\U{3000}'
  }

  function TrimStart(s: string): (r: string)
    ensures r == [] || !IsWhitespace(r[0])
    ensures |r| <= |s| && r == s[|s| - |r|..]
  {
    if s != [] && IsWhitespace(s[0]) then TrimStart(s[1..]) else s
  }

  function TrimEnd(s: string): (r: string)
    ensures r == [] || !IsWhitespace(r[|r| - 1])
    ensures |r| <= |s| && r == s[..|r|]
  {
    if s != [] && IsWhitespace(s[|s| - 1]) then TrimEnd(s[..|s| - 1]) else s
  }

  /** `str::trim`: leading and trailing whitespace removed. */
  function Trim(s: string): string {
    TrimEnd(TrimStart(s))
  }

  /** Each line followed by a newline, as a `push_str(&format!("{}\n", line))`
      loop builds it. */
  function Terminated(lines: seq<string>): string {
    if lines == [] then "" else Terminated(lines[..|lines| - 1]) + lines[|lines| - 1] + "\n"
  }

  /** One more line terminated: the step of the loops that build command
      text one statement at a time. */
  lemma TerminatedExtend(lines: seq<string>, i: nat)
    requires i < |lines|
    ensures Terminated(lines[..i + 1]) == Terminated(lines[..i]) + lines[i] + "\n"
  {
    assert lines[..i + 1][..i] == lines[..i];
  }

  /** The lines separated by single newlines. */
  function JoinLines(lines: seq<string>): string {
    if lines == [] then ""
    else if |lines| == 1 then lines[0]
    else JoinLines(lines[..|lines| - 1]) + "\n" + lines[|lines| - 1]
  }

  /** A line that `trim` would leave alone at both ends. */
  predicate SolidLine(line: string) {
    line != [] && !IsWhitespace(line[0]) && !IsWhitespace(line[|line| - 1])
  }

  lemma UnaliasLineSolid(name: string)
    ensures SolidLine(UnaliasLine(name))
  {
  }

  lemma {:induction false} TerminatedIsJoinedPlusNewline(lines: seq<string>)
    requires lines != []
    ensures Terminated(lines) == JoinLines(lines) + "\n"
    ensures lines[0] != [] ==> JoinLines(lines)[0] == lines[0][0]
    ensures lines[|lines| - 1] != [] ==>
      |JoinLines(lines)| > 0 && JoinLines(lines)[|JoinLines(lines)| - 1] == lines[|lines| - 1][|lines[|lines| - 1]| - 1]
    decreases |lines|
  {
    if |lines| > 1 {
      var init := lines[..|lines| - 1];
      TerminatedIsJoinedPlusNewline(init);
      assert init[0] == lines[0];
    }
  }

  /** Trimming newline-terminated solid lines leaves them joined by newlines:
      only the final newline goes. */
  lemma TrimTerminated(lines: seq<string>)
    requires forall i :: 0 <= i < |lines| ==> SolidLine(lines[i])
    ensures Trim(Terminated(lines)) == JoinLines(lines)
  {
    if lines != [] {
      TerminatedIsJoinedPlusNewline(lines);
      var j := JoinLines(lines);
      assert SolidLine(lines[0]) && SolidLine(lines[|lines| - 1]);
      TrimEndDropsNewline(j);
      assert (j + "\n")[0] == j[0];
    }
  }

  /** A final newline after a non-blank end is all `trim_end` removes. */
  lemma TrimEndDropsNewline(j: string)
    requires j != [] && !IsWhitespace(j[|j| - 1])
    ensures TrimEnd(j + "\n") == j
  {
    assert (j + "\n")[..|j|] == j;
  }
}
