/** The interactive shell's dot-commands, their printed form and the help text. */
module ShellCommands {
  import opened Outcomes
  import opened Text

  datatype Command = Help | Quit

  /** The only parse failure: the input that is not a command. */
  datatype CommandError = Parse(input: string)

  const HELP_COMMAND: string := ".help"
  const QUIT_COMMAND: string := ".quit"

  /** `Commands::from_str`: exactly the two command words are accepted. */
  function ParseCommand(s: string): (r: Result<Command, CommandError>)
    ensures r.Ok? <==> s == HELP_COMMAND || s == QUIT_COMMAND
    ensures r.Err? ==> r.error == Parse(s)
  {
    if s == HELP_COMMAND then Ok(Help)
    else if s == QUIT_COMMAND then Ok(Quit)
    else Err(Parse(s))
  }

  /** `Display for Commands`: the command word, a dot followed by four letters. */
  function CommandText(c: Command): (t: string)
    ensures |t| == 5 && t[0] == '.'
  {
    match c
    case Help => HELP_COMMAND
    case Quit => QUIT_COMMAND
  }

  /** Parsing the printed form of a command gives the command back. */
  lemma ParseCommandText(c: Command)
    ensures ParseCommand(CommandText(c)) == Ok(c)
  {
  }

  /** Printing a parsed command gives back the input it was parsed from. */
  lemma CommandTextOfParse(s: string)
    requires ParseCommand(s).Ok?
    ensures CommandText(ParseCommand(s).value) == s
  {
  }

  const PARSE_ERROR_START: string := "Error: unkown command or invaild arguments: \""
  const PARSE_ERROR_END: string := "\". Enter \".help\" for help"

  /** The text of the parse error, which quotes the rejected input. */
  function ErrorText(e: CommandError): (t: string)
    ensures |t| == |PARSE_ERROR_START| + |e.input| + |PARSE_ERROR_END|
    ensures t[|PARSE_ERROR_START|..|PARSE_ERROR_START| + |e.input|] == e.input
  {
    PARSE_ERROR_START + e.input + PARSE_ERROR_END
  }

  /** Different rejected inputs give different messages. */
  lemma ErrorTextInjective(a: CommandError, b: CommandError)
    requires ErrorText(a) == ErrorText(b)
    ensures a == b
  {
    var t := ErrorText(a);
    assert |a.input| == |b.input|;
    assert a.input == t[|PARSE_ERROR_START|..|PARSE_ERROR_START| + |a.input|] == b.input;
  }

  /** `{:<width}`: `s` left-aligned and padded with spaces to at least `width` characters. */
  function PadRight(s: string, width: nat): (r: string)
    ensures |r| == if |s| < width then width else |s|
    ensures r[..|s|] == s
    ensures forall i :: |s| <= i < |r| ==> r[i] == ' '
  {
    if |s| < width then s + seq(width - |s|, _ => ' ') else s
  }

  const HELP_LINE: string := " Show help text"
  const QUIT_LINE: string := " Stop interpreting input stream and exit"

  /** `help_message`: the two command lines laid out in a column of width 5, then trimmed. */
  function HelpMessage(): string {
    Trim("\n" + PadRight(CommandText(Help), 5) + HELP_LINE + "\n"
         + PadRight(CommandText(Quit), 5) + QUIT_LINE + "\n        ")
  }

  /** A trimmed text framed by a newline and a newline-and-indent trims back to itself. */
  lemma TrimFramed(x: string)
    requires Trimmed(x)
    ensures Trim("\n" + x + "\n        ") == x
  {
    SurroundingWhitespace("\n", x, "\n        ");
    TrimOfTrimmed(x);
  }

  /**
   * The help text, exactly: the two command lines joined by a newline, with
   * the layout's leading newline and trailing indentation trimmed away.
   */
  lemma HelpMessageText()
    ensures HelpMessage() == HELP_COMMAND + HELP_LINE + "\n" + QUIT_COMMAND + QUIT_LINE
  {
    var body := HELP_COMMAND + HELP_LINE + "\n" + QUIT_COMMAND + QUIT_LINE;
    assert PadRight(CommandText(Help), 5) == HELP_COMMAND;
    assert PadRight(CommandText(Quit), 5) == QUIT_COMMAND;
    assert body[0] == '.' && body[|body| - 1] == 't';
    TrimFramed(body);
    assert "\n" + HELP_COMMAND + HELP_LINE + "\n" + QUIT_COMMAND + QUIT_LINE + "\n        "
           == "\n" + body + "\n        ";
  }
}

/** The shell's resource names, shown in the prompt. */
module ShellResources {
  datatype Resource = Tags | Remarks

  /** `Display for Resources`. */
  function ResourceText(r: Resource): (t: string)
    ensures t != []
    ensures forall i :: 0 <= i < |t| ==> 'a' <= t[i] <= 'z'
  {
    match r
    case Tags => "tags"
    case Remarks => "remarks"
  }

  /** The two resources print differently. */
  lemma ResourceTextInjective(a: Resource, b: Resource)
    requires ResourceText(a) == ResourceText(b)
    ensures a == b
  {
  }
}

/** The shell's input classification, prompt and evaluation step. */
module Shell {
  import opened Outcomes
  import opened Text
  import opened ShellCommands
  import opened ShellResources

  const BASE_URL: string := "canopus://127.0.0.1"
  const PROMPT_END: string := "\n>>> "

  /** A line of input: a dot-command, or a query handed to the client's argument parser. */
  datatype ShellInput = Query(query: string) | CommandInput(command: Command)

  /** What evaluating a line does: stop the loop, print the help, or run the client with arguments. */
  datatype Action = Exit | ShowHelp | Run(args: seq<string>)

  /** `ShellInput::from_str`: a line starting with a dot must be a command; anything else is a query. */
  function ParseShellInput(s: string): (r: Result<ShellInput, CommandError>)
    ensures s != [] && s[0] == '.' ==>
      (r.Ok? <==> ParseCommand(s).Ok?)
      && (r.Ok? ==> r.value == CommandInput(ParseCommand(s).value))
      && (r.Err? ==> r.error == Parse(s))
    ensures !(s != [] && s[0] == '.') ==> r == Ok(Query(s))
  {
    if s != [] && s[0] == '.' then
      match ParseCommand(s)
      case Ok(command) => Ok(CommandInput(command))
      case Err(e) => Err(e)
    else Ok(Query(s))
  }

  /** A printed command is read back as that command, never as a query. */
  lemma ParseShellInputOfCommand(c: Command)
    ensures ParseShellInput(CommandText(c)) == Ok(CommandInput(c))
  {
    ParseCommandText(c);
  }

  /** Every line is either read back verbatim as a query or is a dot-line. */
  lemma QueriesAreVerbatim(s: string)
    ensures ParseShellInput(s).Ok? && ParseShellInput(s).value.Query? ==> ParseShellInput(s).value.query == s
    ensures ParseShellInput(s).Ok? && ParseShellInput(s).value.Query? <==> !(s != [] && s[0] == '.')
  {
  }

  /** `Shell::prompt`: the base address, the resource when one is selected, then the input marker. */
  function Prompt(resource: Option<Resource>): (p: string)
    ensures |p| >= |BASE_URL| + |PROMPT_END|
    ensures p[..|BASE_URL|] == BASE_URL
    ensures p[|p| - |PROMPT_END|..] == PROMPT_END
    ensures resource.None? ==> |p| == |BASE_URL| + |PROMPT_END|
    ensures resource.Some? ==>
      p[|BASE_URL|..|p| - |PROMPT_END|] == "/" + ResourceText(resource.value)
  {
    var url := if resource.Some? then BASE_URL + "/" + ResourceText(resource.value) else BASE_URL;
    url + PROMPT_END
  }

  /** Different selections give different prompts. */
  lemma PromptInjective(a: Option<Resource>, b: Option<Resource>)
    requires Prompt(a) == Prompt(b)
    ensures a == b
  {
    var p := Prompt(a);
    if a.Some? && b.Some? {
      assert "/" + ResourceText(a.value) == p[|BASE_URL|..|p| - |PROMPT_END|] == "/" + ResourceText(b.value);
      assert ResourceText(a.value) == ("/" + ResourceText(a.value))[1..];
      ResourceTextInjective(a.value, b.value);
    }
  }

  /**
   * The argument vector for a query: an empty program name, then the
   * query's whitespace-separated words. Joined together they give the query
   * with its whitespace removed.
   */
  method QueryArgs(query: string) returns (args: seq<string>)
    ensures |args| == |Words(query)| + 1 && args[0] == "" && args[1..] == Words(query)
    ensures Concat(args) == Squeeze(query)
  {
    args := Words(query);
    args := [""] + args;
    assert args[1..] == Words(query);
    WordsCoverInput(query);
  }

  /**
   * `Shell::evaluate`: only `.quit` stops the loop; `.help` prints the help
   * text; a query runs the client; a bad dot-command is an error.
   */
  method Evaluate(input: string) returns (r: Result<Action, CommandError>)
    ensures r.Err? <==> ParseShellInput(input).Err?
    ensures r.Err? ==> r.error == ParseShellInput(input).error
    ensures r == Ok(Exit) <==> ParseShellInput(input) == Ok(CommandInput(Quit))
    ensures r == Ok(ShowHelp) <==> ParseShellInput(input) == Ok(CommandInput(Help))
    ensures r.Ok? && r.value.Run? <==> ParseShellInput(input).Ok? && ParseShellInput(input).value.Query?
    ensures r.Ok? && r.value.Run? ==> r.value.args == [""] + Words(input)
  {
    match ParseShellInput(input)
    case Err(e) =>
      r := Err(e);
    case Ok(CommandInput(Quit)) =>
      r := Ok(Exit);
    case Ok(CommandInput(Help)) =>
      r := Ok(ShowHelp);
    case Ok(Query(query)) =>
      var args := QueryArgs(query);
      r := Ok(Run(args));
  }
}
