/**
 * `yes_no_question` from src/utils/question.rs: prints a prompt, reads one byte
 * and turns it into a yes or no answer, falling back to the default answer.
 */
module Question {
  import opened Wrappers

  /** A byte read from standard input. */
  type byte = x: int | 0 <= x < 256

  const NewLine: byte := 10
  const LowerY: byte := 121
  const LowerN: byte := 110

  /** The answer given when the user presses enter, or types anything but y or n. */
  datatype DefaultAnswer = Yes | No

  /** The user's answer, and whether it came from the default. */
  datatype Response = Yes(defaulted: bool) | No(defaulted: bool)

  /** `Display for DefaultAnswer`: the capital letter marks the default. */
  function Show(d: DefaultAnswer): (r: string)
    ensures |r| == 3 && r[1] == '/'
    ensures d == DefaultAnswer.Yes ==> r[0] == 'Y' && r[2] == 'n'
    ensures d == DefaultAnswer.No ==> r[0] == 'y' && r[2] == 'N'
  {
    match d
    case Yes => "Y/n"
    case No => "y/N"
  }

  /** The text printed before reading: "<prompt> [<default>] ". */
  function Prompt(prompt: string, d: DefaultAnswer): (r: string)
    ensures |r| == |prompt| + 7
    ensures r[..|prompt|] == prompt
    ensures r[|prompt|..] == " [" + Show(d) + "] "
  {
    prompt + " [" + Show(d) + "] "
  }

  /** The two defaults are told apart by the prompt alone. */
  lemma PromptShowsDefault(prompt: string, d1: DefaultAnswer, d2: DefaultAnswer)
    ensures Prompt(prompt, d1) == Prompt(prompt, d2) <==> d1 == d2
  {
    if Prompt(prompt, d1) == Prompt(prompt, d2) {
      assert Prompt(prompt, d1)[|prompt| + 2] == Prompt(prompt, d2)[|prompt| + 2];
    }
  }

  /** `u8::to_ascii_lowercase`: 'A'..'Z' become 'a'..'z', any other byte is kept. */
  function AsciiLower(b: byte): (r: byte)
  {
    if 65 <= b <= 90 then b + 32 else b
  }

  /** The decision on the byte read: y and n in either case answer outright; anything else takes the default. */
  function Decode(b: byte, d: DefaultAnswer): (r: Response)
    ensures b == 121 || b == 89 ==> r == Response.Yes(false)
    ensures b == 110 || b == 78 ==> r == Response.No(false)
    ensures b != 121 && b != 89 && b != 110 && b != 78 ==>
      r.Yes? == (d == DefaultAnswer.Yes) && r.defaulted == (b == NewLine)
  {
    var input := AsciiLower(b);
    if input == LowerY then Response.Yes(false)
    else if input == LowerN then Response.No(false)
    else
      match d
      case Yes => Response.Yes(input == NewLine)
      case No => Response.No(input == NewLine)
  }

  /** The answer the default stands for. */
  predicate Agrees(r: Response, d: DefaultAnswer)
  {
    r.Yes? <==> d == DefaultAnswer.Yes
  }

  /**
   * A defaulted answer is the default answer and comes only from the enter key;
   * an answer against the default is always a typed y or n.
   */
  lemma DefaultedOnlyOnEnter(b: byte, d: DefaultAnswer)
    ensures Decode(b, d).defaulted <==> b == NewLine
    ensures Decode(b, d).defaulted ==> Agrees(Decode(b, d), d)
    ensures !Agrees(Decode(b, d), d) ==> b in {121, 89, 110, 78}
  {
  }

  /** An empty read leaves the buffer at 0: the default answer, not marked as defaulted. */
  lemma EndOfInputTakesDefault(d: DefaultAnswer)
    ensures Agrees(Decode(0, d), d) && !Decode(0, d).defaulted
  {
  }

  /** What the read from standard input gave: the bytes available, or an error. */
  datatype ReadResult = Read(bytes: seq<byte>) | ReadFailed(error: string)

  /** What the terminal sees: what went to standard output and to standard error, and the answer or the exit status. */
  datatype Exchange = Exchange(stdout: string, stderr: string, outcome: Result<Response, int>)

  /** The exchange `yes_no_question` carries out, given how the flush and the read go. */
  function Asked(prompt: string, d: DefaultAnswer, flush: Option<string>, input: ReadResult): (r: Exchange)
    ensures r.stdout == Prompt(prompt, d)
    ensures r.outcome.Err? <==> flush.Some? || input.ReadFailed?
    ensures r.outcome.Err? ==> r.outcome.error == -1
    ensures flush.None? && input.Read? ==>
      r.outcome == Ok(Decode(if input.bytes == [] then 0 else input.bytes[0], d)) && r.stderr == ""
  {
    if flush.Some? then
      Exchange(Prompt(prompt, d), "Exception flushing stdout: " + flush.value + "\n\n", Err(-1))
    else if input.ReadFailed? then
      Exchange(Prompt(prompt, d), "Exception reading user input: " + input.error + "\n\n", Err(-1))
    else
      Exchange(Prompt(prompt, d), "", Ok(Decode(if input.bytes == [] then 0 else input.bytes[0], d)))
  }

  /**
   * `yes_no_question`: the prompt, the flush, then a read into a one-byte buffer
   * that starts at 0; a failed flush or read prints the error and exits with -1.
   */
  method YesNoQuestion(prompt: string, defaultAnswer: DefaultAnswer, flush: Option<string>, input: ReadResult)
    returns (stdout: string, stderr: string, outcome: Result<Response, int>)
    ensures Exchange(stdout, stderr, outcome) == Asked(prompt, defaultAnswer, flush, input)
  {
    stdout := Prompt(prompt, defaultAnswer);
    stderr := "";
    if flush.Some? {
      stderr := stderr + "Exception flushing stdout: " + flush.value + "\n";
      stderr := stderr + "\n";
      assert stderr == "Exception flushing stdout: " + flush.value + "\n\n";
      return stdout, stderr, Err(-1);
    }
    var character := new byte[1](_ => 0);
    match input {
      case Read(bytes) =>
        if |bytes| > 0 {
          character[0] := bytes[0];
        }
        assert character[0] == if bytes == [] then 0 else bytes[0];
        outcome := Ok(Decode(character[0], defaultAnswer));
      case ReadFailed(error) =>
        stderr := stderr + "Exception reading user input: " + error + "\n";
        stderr := stderr + "\n";
        assert stderr == "Exception reading user input: " + error + "\n\n";
        outcome := Err(-1);
    }
  }
}
