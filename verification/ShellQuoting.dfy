/** Single-quote quoting of hook commands and the recogniser of commands this
    program seeded itself (baude-core/src/hook.rs). */
module ShellQuoting {
  import opened Prelude

  const QUOTE := '\''
  /** Close the quotes, an escaped quote, open them again. */
  const ESCAPED: string := "'\\''"

  /** Every quote of `s` replaced by the escape. */
  function Escape(s: string): string {
    if s == "" then ""
    else if s[0] == QUOTE then ESCAPED + Escape(s[1..])
    else [s[0]] + Escape(s[1..])
  }

  /** Every escape of `s`, leftmost first and without overlap, replaced by a quote. */
  function Unescape(s: string): string {
    if s == "" then ""
    else if ESCAPED <= s then [QUOTE] + Unescape(s[|ESCAPED|..])
    else [s[0]] + Unescape(s[1..])
  }

  function Quote(s: string): string {
    [QUOTE] + Escape(s) + [QUOTE]
  }

  predicate LooksQuoted(s: string) {
    |s| >= 2 && s[0] == QUOTE && s[|s| - 1] == QUOTE
  }

  function Unquote(quoted: string): Option<string> {
    if !LooksQuoted(quoted) then None
    else
      var candidate := Unescape(quoted[1..|quoted| - 1]);
      if Quote(candidate) == quoted then Some(candidate) else None
  }

  lemma {:induction false} UnescapeUndoesEscape(s: string)
    ensures Unescape(Escape(s)) == s
  {
    if s != "" {
      UnescapeUndoesEscape(s[1..]);
      if s[0] == QUOTE { assert Escape(s)[|ESCAPED|..] == Escape(s[1..]); }
      else { assert Escape(s)[1..] == Escape(s[1..]) && ESCAPED[0] == QUOTE; }
    }
  }

  /** Unquoting accepts a string exactly when quoting produced it, and gives back what was quoted. */
  lemma UnquoteInvertsQuote(quoted: string, s: string)
    ensures Unquote(quoted) == Some(s) <==> quoted == Quote(s)
  {
    UnescapeUndoesEscape(s);
    assert Quote(s)[1..|Quote(s)| - 1] == Escape(s);
  }

  // ----- What a shell reads -----

  const BLANK := {' ', '\t'}
  /** Unquoted, these start an operator, an expansion, a comment or other quoting. */
  const SPECIAL := {'|', '&', ';', '<', '>', '(', ')', '$', '`', '"', '*', '?', '[', '#', '~', '=', '%', '\n', '!', '{', '}'}

  /** The words of a command line that uses only blanks, escape characters and
      single quotes (sections 2.2.1, 2.2.2 and 2.3 of the POSIX Shell Command
      Language); `word` is the word being read, if one has begun. */
  function Words(s: string, word: Option<string>): Option<seq<string>>
    decreases |s|
  {
    if s == "" then Some(if word.None? then [] else [word.value])
    else if s[0] in BLANK then
      var rest := Words(s[1..], None);
      if word.None? || rest.None? then rest else Some([word.value] + rest.value)
    else if s[0] == QUOTE then InQuotes(s[1..], Begun(word))
    else if s[0] == '\\' then
      if |s| == 1 then None
      else if s[1] == '\n' then Words(s[2..], word)
      else Words(s[2..], Some(Begun(word) + [s[1]]))
    else if s[0] in SPECIAL then None
    else Words(s[1..], Some(Begun(word) + [s[0]]))
  }

  function InQuotes(s: string, word: string): Option<seq<string>>
    decreases |s|
  {
    if s == "" then None
    else if s[0] == QUOTE then Words(s[1..], Some(word))
    else InQuotes(s[1..], word + [s[0]])
  }

  function Begun(word: Option<string>): string {
    if word.None? then "" else word.value
  }

  function ShellWords(line: string): Option<seq<string>> {
    Words(line, None)
  }

  lemma {:induction false} EscapedReadsLiterally(s: string, rest: string, word: string)
    ensures InQuotes(Escape(s) + [QUOTE] + rest, word) == Words(rest, Some(word + s))
    decreases |s|
  {
    var line := Escape(s) + [QUOTE] + rest;
    if s == "" {
      assert line[1..] == rest && word + s == word;
    } else {
      var tail := Escape(s[1..]) + [QUOTE] + rest;
      EscapedReadsLiterally(s[1..], rest, word + [s[0]]);
      assert word + [s[0]] + s[1..] == word + s;
      if s[0] == QUOTE {
        assert line == ESCAPED + tail;
        EscapeReadsAsQuote(tail, word);
      } else {
        assert line[0] == s[0] && line[1..] == tail;
      }
    }
  }

  lemma EscapeReadsAsQuote(tail: string, word: string)
    ensures InQuotes(ESCAPED + tail, word) == InQuotes(tail, word + [QUOTE])
  {
    var a, b, c := (ESCAPED + tail)[1..], [QUOTE] + tail, tail;
    assert a[0] == '\\' && a[1] == QUOTE && a[2..] == b;
    assert b[0] == QUOTE && b[1..] == c;
    assert InQuotes(ESCAPED + tail, word) == Words(a, Some(word));
    assert Words(a, Some(word)) == Words(b, Some(word + [QUOTE]));
  }

  /** A quoted string only ever adds its own characters to the word it stands in. */
  lemma QuotedReadsLiterally(s: string, rest: string, word: Option<string>)
    ensures Words(Quote(s) + rest, word) == Words(rest, Some(Begun(word) + s))
  {
    var line := Quote(s) + rest;
    assert line[0] == QUOTE && line[1..] == Escape(s) + [QUOTE] + rest;
    EscapedReadsLiterally(s, rest, Begun(word));
  }

  function QuotedLine(arguments: seq<string>): string {
    if arguments == [] then "" else Quote(arguments[0]) + " " + QuotedLine(arguments[1..])
  }

  /** Any list of arguments survives quoting, whatever characters they hold. */
  lemma {:induction false} QuotedArgumentsReadBack(arguments: seq<string>)
    ensures ShellWords(QuotedLine(arguments)) == Some(arguments)
  {
    if arguments != [] {
      var rest := " " + QuotedLine(arguments[1..]);
      QuotedArgumentsReadBack(arguments[1..]);
      QuotedReadsLiterally(arguments[0], rest, None);
      assert QuotedLine(arguments) == Quote(arguments[0]) + rest;
      BlankEndsWord(arguments[0], QuotedLine(arguments[1..]));
      assert "" + arguments[0] == arguments[0];
      assert [arguments[0]] + arguments[1..] == arguments;
    }
  }

  // ----- Seeded hook commands -----

  const HOOK := " hook"
  const FALLBACK_HOOK_COMMAND := "baude hook"

  function HookCommand(executable: string): string {
    Quote(executable) + HOOK
  }

  function LastIndex(s: string, c: char): (at: Option<nat>)
    ensures at.Some? ==> at.value < |s| && s[at.value] == c && c !in s[at.value + 1..]
    ensures at.None? ==> c !in s
    decreases |s|
  {
    if s == "" then None
    else if s[|s| - 1] == c then Some(|s| - 1)
    else
      var at := LastIndex(s[..|s| - 1], c);
      assert s == s[..|s| - 1] + [s[|s| - 1]];
      assert at.Some? ==> s[at.value + 1..] == s[..|s| - 1][at.value + 1..] + [s[|s| - 1]];
      at
  }

  /** The last component of a Unix path: empty and `.` components do not count, `..` has no name. */
  function FileName(path: string): Option<string>
    decreases |path|
  {
    var slash := LastIndex(path, '/');
    var start := if slash.None? then 0 else slash.value + 1;
    var component := path[start..];
    if component == "" || component == "." then
      if slash.None? then None else FileName(path[..slash.value])
    else if component == ".." then None
    else Some(component)
  }

  /** The name up to its last dot; a name that only starts with a dot is all stem. */
  function Stem(name: string): string {
    var dot := LastIndex(name, '.');
    if dot.None? || dot.value == 0 then name else name[..dot.value]
  }

  /** An absolute path to one of the program's two binaries. */
  predicate NamesBinary(path: string) {
    path != "" && path[0] == '/' && FileName(path).Some? && Stem(FileName(path).value) in ["baude", "bauded"]
  }

  predicate IsSeededHookCommand(command: string) {
    var at := |command| - |HOOK|;
    if at < 0 || command[at..] != HOOK then false
    else
      var remainder := command[..at];
      if LooksQuoted(remainder) then Unquote(remainder).Some? && NamesBinary(Unquote(remainder).value)
      else NamesBinary(remainder)
  }

  /** Recognised are exactly the commands some release seeded: the quoted or the
      raw absolute path of a `baude` or `bauded` binary, then ` hook`. */
  lemma SeededIsExact(command: string)
    ensures IsSeededHookCommand(command)
      <==> (exists path | NamesBinary(path) :: command == HookCommand(path) || command == path + HOOK)
  {
    hide NamesBinary, Quote, Unquote;
    if IsSeededHookCommand(command) {
      var remainder := command[..|command| - |HOOK|];
      assert command == remainder + HOOK;
      if LooksQuoted(remainder) {
        var path := Unquote(remainder).value;
        UnquoteInvertsQuote(remainder, path);
        assert NamesBinary(path) && command == HookCommand(path);
      } else {
        assert NamesBinary(remainder);
      }
    }
    forall path | NamesBinary(path) && (command == HookCommand(path) || command == path + HOOK)
      ensures IsSeededHookCommand(command)
    {
      SeededIsRecognised(path);
    }
  }

  lemma SeededIsRecognised(path: string)
    requires NamesBinary(path)
    ensures IsSeededHookCommand(HookCommand(path)) && IsSeededHookCommand(path + HOOK)
  {
    hide FileName;
    var quoted, raw := HookCommand(path), path + HOOK;
    assert quoted[..|quoted| - |HOOK|] == Quote(path) && quoted[|quoted| - |HOOK|..] == HOOK;
    assert raw[..|raw| - |HOOK|] == path && raw[|raw| - |HOOK|..] == HOOK;
    UnquoteInvertsQuote(Quote(path), path);
  }

  lemma {:induction false} LastIndexIs(s: string, c: char, k: nat)
    requires k < |s| && s[k] == c && c !in s[k + 1..]
    ensures LastIndex(s, c) == Some(k)
    decreases |s|
  {
    if k < |s| - 1 {
      assert s[|s| - 1] == s[k + 1..][|s| - 2 - k];
      assert s[..|s| - 1][k + 1..] == s[k + 1..][..|s| - 2 - k];
      LastIndexIs(s[..|s| - 1], c, k);
    }
  }

  lemma FileNameIs(directory: string, name: string)
    requires '/' !in name && name !in ["", ".", ".."]
    ensures FileName(directory + "/" + name) == Some(name)
  {
    var path := directory + "/" + name;
    assert path[|directory|] == '/' && path[|directory| + 1..] == name;
    LastIndexIs(path, '/', |directory|);
  }

  lemma StemIs(name: string, stem: string)
    requires stem in ["baude", "bauded"]
    requires name == stem || (stem + "." <= name && '.' !in name[|stem| + 1..])
    ensures Stem(name) == stem
  {
    if name == stem {
      assert '.' !in stem;
    } else {
      LastIndexIs(name, '.', |stem|);
    }
  }

  /** Wherever the binary lives, its seed is recognised, and a shell runs that binary with the one argument. */
  lemma EveryInstallIsRecognised(directory: string, name: string, stem: string)
    requires directory == "" || directory[0] == '/'
    requires stem in ["baude", "bauded"] && '/' !in name
    requires name == stem || (stem + "." <= name && '.' !in name[|stem| + 1..])
    ensures IsSeededHookCommand(HookCommand(directory + "/" + name))
    ensures ShellWords(HookCommand(directory + "/" + name)) == Some([directory + "/" + name, "hook"])
  {
    hide LastIndex, FileName, Stem, IsSeededHookCommand, HookCommand;
    FileNameIs(directory, name);
    StemIs(name, stem);
    SeededIsRecognised(directory + "/" + name);
    ShellRunsTheBinary(directory + "/" + name);
  }

  /** No character of the text means anything to a shell. */
  predicate Plain(s: string) {
    forall i | 0 <= i < |s| :: s[i] !in BLANK && s[i] !in SPECIAL && s[i] != QUOTE && s[i] != '\\'
  }

  lemma {:induction false} PlainReadsLiterally(s: string, word: Option<string>)
    requires word.Some? || s != ""
    requires Plain(s)
    ensures Words(s, word) == Some([Begun(word) + s])
    decreases |s|
  {
    if s == "" {
      assert word.value + s == word.value;
    } else {
      PlainReadsLiterally(s[1..], Some(Begun(word) + [s[0]]));
      assert Begun(word) + [s[0]] + s[1..] == Begun(word) + s;
    }
  }

  lemma ShellRunsTheBinary(path: string)
    ensures ShellWords(HookCommand(path)) == Some([path, "hook"])
  {
    hide Words, Plain, Quote;
    QuotedReadsLiterally(path, HOOK, None);
    HookIsPlain();
    PlainReadsLiterally("hook", None);
    assert HOOK == " " + "hook";
    BlankEndsWord(path, "hook");
    assert Begun(None) + path == path && Begun(None) + "hook" == "hook";
    assert [path] + ["hook"] == [path, "hook"];
  }

  lemma HookIsPlain()
    ensures Plain("hook")
  {
  }

  lemma BlankEndsWord(word: string, rest: string)
    requires Words(rest, None).Some?
    ensures Words(" " + rest, Some(word)) == Some([word] + Words(rest, None).value)
  {
    assert (" " + rest)[0] == ' ' && (" " + rest)[1..] == rest;
  }

  /** The fallback names no install, so it is never taken for a seed. */
  lemma FallbackIsNotSeeded()
    ensures !IsSeededHookCommand(FALLBACK_HOOK_COMMAND)
  {
    assert FALLBACK_HOOK_COMMAND[..5] == "baude";
  }
}
