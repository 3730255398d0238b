/** The About page console: a buffer of numbered lines that grows by one echo
    and one output per command, and that `clear` empties. */
module AboutConsole {
  import opened Wrappers
  import opened Text

  /** The commands the console knows, in the order `help` lists them. */
  const Supported: seq<string> :=
    ["whoami", "contact", "profiles", "edu", "learning", "tools", "interests", "clear", "help"]

  const Dash := "—"

  /** The profile the console reports on. */
  datatype About = About(
    phone: string,
    instagram: string,
    github: string,
    school: string,
    major: string,
    learning: seq<string>,
    tools: seq<string>,
    interests: seq<string>)

  /** `safeVal(v)`: the value, or a dash for an empty value or a dash itself. */
  function SafeVal(v: string): (r: string)
    ensures r == Dash <==> v == [] || v == Dash
    ensures r != Dash ==> r == v
  {
    if v != [] && v != Dash then v else Dash
  }

  /** What `linkOrDash(url)` shows: a link to the url, or a dash. */
  datatype Shown = Link(url: string) | DashText

  function LinkOrDash(url: string): (r: Shown)
    ensures r.Link? <==> url != [] && url != Dash
    ensures r.Link? ==> r.url == url
  {
    if url != [] && url != Dash then Link(url) else DashText
  }

  /** `items.join(sep)`. */
  function Join(items: seq<string>, sep: string): string {
    if items == [] then []
    else if |items| == 1 then items[0]
    else items[0] + sep + Join(items[1..], sep)
  }

  /** The output line a command appends. */
  datatype Output =
    | Whoami
    | Contact(phone: string, email: Shown)
    | Profiles(github: Shown, instagram: Shown)
    | Edu(school: string, major: string)
    | Pills(items: seq<string>)
    | Help(available: string)
    | Unknown(raw: string)

  /** The output `runCommand` appends for the normalised command `cmd` typed as
      `raw`, or `None` for `clear`, which appends nothing. */
  function OutputFor(cmd: string, raw: string, email: Option<string>, about: About): (r: Option<Output>)
    ensures r.None? <==> cmd == "clear"
  {
    if cmd == "whoami" then Some(Whoami)
    else if cmd == "contact" then
      var e := if email.Some? && email.value != [] then Link("mailto:" + email.value) else DashText;
      Some(Contact(SafeVal(about.phone), e))
    else if cmd == "profiles" then Some(Profiles(LinkOrDash(about.github), LinkOrDash(about.instagram)))
    else if cmd == "edu" then Some(Edu(about.school, about.major))
    else if cmd == "learning" then Some(Pills(about.learning))
    else if cmd == "tools" then Some(Pills(about.tools))
    else if cmd == "interests" then Some(Pills(about.interests))
    else if cmd == "help" then Some(Help(Join(Supported, ", ")))
    else if cmd == "clear" then None
    else Some(Unknown(raw))
  }

  /** Exactly the commands outside the supported list fall through to the
      "command not found" output, which repeats what was typed. */
  lemma UnknownIffUnsupported(cmd: string, raw: string, email: Option<string>, about: About)
    ensures var r := OutputFor(cmd, raw, email, about);
      && (r.Some? && r.value.Unknown? <==> cmd !in Supported)
      && (r.Some? && r.value.Unknown? ==> r.value.raw == raw)
  {
  }

  /** A buffer line: an echoed command or an output, each with its number. */
  datatype Line = Cmd(id: nat, text: string) | Out(id: nat, node: Output)

  /** Line numbers strictly increase along the buffer and stay below `next`. */
  predicate Numbered(lines: seq<Line>, next: nat) {
    && (forall i, j :: 0 <= i < j < |lines| ==> lines[i].id < lines[j].id)
    && (forall i :: 0 <= i < |lines| ==> lines[i].id < next)
  }

  /** Appending a line numbered `next` keeps the numbering, with `next + 1` as
      the new bound. */
  lemma NumberedAppend(lines: seq<Line>, next: nat, l: Line)
    requires Numbered(lines, next) && l.id == next
    ensures Numbered(lines + [l], next + 1)
  {
    var s := lines + [l];
    forall i, j | 0 <= i < j < |s| ensures s[i].id < s[j].id {
      if j == |lines| {
        assert s[i] == lines[i];
      } else {
        assert s[i] == lines[i] && s[j] == lines[j];
      }
    }
    forall i | 0 <= i < |s| ensures s[i].id < next + 1 {
      if i < |lines| {
        assert s[i] == lines[i];
      }
    }
  }

  /** Numbered lines have distinct numbers. */
  lemma NumberedIsUnique(lines: seq<Line>, next: nat)
    requires Numbered(lines, next)
    ensures forall i, j :: 0 <= i < |lines| && 0 <= j < |lines| && i != j ==> lines[i].id != lines[j].id
  {
  }

  /** The line buffer and the next line number. */
  datatype Screen = Screen(lines: seq<Line>, next: nat)

  /** The screen after `runCommand` for the command typed as `raw` and
      normalised (trimmed and lower-cased) to `cmd`: a blank command does
      nothing; otherwise the raw command is echoed, then `clear` empties the
      buffer (dropping the echo too) and any other command appends its one
      output. */
  function Run(s: Screen, cmd: string, raw: string, email: Option<string>, about: About): (r: Screen)
    ensures cmd == [] ==> r == s
    ensures cmd == "clear" ==> r == Screen([], s.next + 1)
    ensures cmd != [] && cmd != "clear" ==>
      && r.next == s.next + 2
      && |r.lines| == |s.lines| + 2 && r.lines[..|s.lines|] == s.lines
      && r.lines[|s.lines|] == Cmd(s.next, "> " + raw)
      && r.lines[|s.lines| + 1] == Out(s.next + 1, OutputFor(cmd, raw, email, about).value)
  {
    if cmd == [] then s
    else if cmd == "clear" then Screen([], s.next + 1)
    else
      var l := s.lines + [Cmd(s.next, "> " + raw)] + [Out(s.next + 1, OutputFor(cmd, raw, email, about).value)];
      assert l[..|s.lines|] == s.lines;
      Screen(l, s.next + 2)
  }

  /** A command changes the screen exactly when it is not blank. */
  lemma RunChangesIffNotBlank(s: Screen, raw: string, email: Option<string>, about: About)
    ensures Run(s, TrimLower(raw), raw, email, about) == s <==> AllSpace(raw)
  {
  }

  /** Running a command keeps the buffer numbered, and the counter never goes
      back. */
  lemma RunNumbered(s: Screen, cmd: string, raw: string, email: Option<string>, about: About)
    requires Numbered(s.lines, s.next)
    ensures var r := Run(s, cmd, raw, email, about);
      Numbered(r.lines, r.next) && r.next >= s.next
  {
    if cmd != [] && cmd != "clear" {
      var echo := Cmd(s.next, "> " + raw);
      NumberedAppend(s.lines, s.next, echo);
      NumberedAppend(s.lines + [echo], s.next + 1, Out(s.next + 1, OutputFor(cmd, raw, email, about).value));
    }
  }

  /** `AboutConsole`: the line buffer, the `nextId` counter, the input field and
      whether the intro script has been ended. */
  class Console {
    var lines: seq<Line>
    var nextId: nat
    var input: string
    var autoScriptDone: bool
    const email: Option<string>
    const about: About

    predicate Valid()
      reads this`lines, this`nextId
    {
      nextId >= 1 && Numbered(lines, nextId)
    }

    constructor (email: Option<string>, about: About)
      ensures Valid()
      ensures lines == [] && nextId == 1 && input == [] && !autoScriptDone
      ensures this.email == email && this.about == about
    {
      lines, nextId, input, autoScriptDone := [], 1, [], false;
      this.email, this.about := email, about;
    }

    /** `addCmd(text)`: echoes the command after a prompt. */
    method AddCmd(text: string)
      requires Valid()
      modifies this`lines, this`nextId
      ensures Valid()
      ensures lines == old(lines) + [Cmd(old(nextId), "> " + text)] && nextId == old(nextId) + 1
    {
      NumberedAppend(lines, nextId, Cmd(nextId, "> " + text));
      lines := lines + [Cmd(nextId, "> " + text)];
      nextId := nextId + 1;
    }

    /** `addOut(node)`: appends an output line. */
    method AddOut(node: Output)
      requires Valid()
      modifies this`lines, this`nextId
      ensures Valid()
      ensures lines == old(lines) + [Out(old(nextId), node)] && nextId == old(nextId) + 1
    {
      NumberedAppend(lines, nextId, Out(nextId, node));
      lines := lines + [Out(nextId, node)];
      nextId := nextId + 1;
    }

    /** `clearAll()`: empties the buffer; the counter keeps counting. */
    method ClearAll()
      requires Valid()
      modifies this`lines
      ensures Valid()
      ensures lines == []
    {
      lines := [];
    }

    /** `runCommand(cmdRaw)`, as `Run` describes it. */
    method RunCommand(cmdRaw: string)
      requires Valid()
      modifies this`lines, this`nextId
      ensures Valid()
      ensures Screen(lines, nextId) == Run(Screen(old(lines), old(nextId)), TrimLower(cmdRaw), cmdRaw, email, about)
    {
      var cmd := TrimLower(cmdRaw);
      if cmd != [] {
        Execute(cmd, cmdRaw);
      }
    }

    /** The part of `runCommand` after the blank check: the echo, then the
        `switch` on the normalised command. */
    method Execute(cmd: string, raw: string)
      requires Valid() && cmd != []
      modifies this`lines, this`nextId
      ensures Valid()
      ensures Screen(lines, nextId) == Run(Screen(old(lines), old(nextId)), cmd, raw, email, about)
    {
      AddCmd(raw);
      if cmd == "clear" {
        ClearAll();
      } else {
        AddOut(OutputFor(cmd, raw, email, about).value);
      }
    }

    /** Typing in the input field. */
    method ChangeInput(v: string)
      modifies this`input
      ensures input == v
    {
      input := v;
    }

    /** `onSubmit`: blank input is ignored; otherwise the intro script ends, the
        trimmed input runs as a command and the field is cleared. */
    method OnSubmit()
      requires Valid()
      modifies this`lines, this`nextId, this`input, this`autoScriptDone
      ensures Valid()
      ensures AllSpace(old(input)) ==>
        lines == old(lines) && nextId == old(nextId) && input == old(input) && autoScriptDone == old(autoScriptDone)
      ensures !AllSpace(old(input)) ==>
        && autoScriptDone && input == []
        && Screen(lines, nextId) == Run(Screen(old(lines), old(nextId)), TrimLower(old(input)), Trim(old(input)), email, about)
    {
      var v := Trim(input);
      TrimEmptyIff(input);
      if v == [] {
        return;
      }
      TrimIdempotent(input);
      autoScriptDone := true;
      RunCommand(v);
      input := [];
    }
  }
}
