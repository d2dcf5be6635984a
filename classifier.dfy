/** How the `messageCreate` handler sorts an incoming message before any store access. */
module Classifier {
  import opened Options
  import opened Text
  import opened DatePattern

  /** The parts of a chat message the handler reads. */
  datatype Message = Message(fromBot: bool, username: string, content: string)

  /** What the handler does with a message. */
  datatype Dispatch =
    | Ignored                       // written by a bot
    | ReadOnlyCommand(name: string) // !checkdb, !mypoints, !listusers, !help, !debugschema
    | UnknownCommand                // starts with `!`, no command of that name
    | FormatError                   // !cg or !clangathering without a date
    | CommandAward(date: DateMatch) // !cg or !clangathering with a date
    | AutoCandidate(date: DateMatch)// no `!`, a date found by the automatic pattern
    | NoDate                        // no `!` and no date

  /** `split(' ')[0]`: everything before the first U+0020 space (tabs do not split). */
  function FirstToken(s: string): (t: string)
    ensures t <= s && ' ' !in t
    ensures |t| < |s| ==> s[|t|] == ' '
  {
    if s == [] || s[0] == ' ' then [] else [s[0]] + FirstToken(s[1..])
  }

  /** `content.toLowerCase().split(' ')[0]`. */
  function CommandToken(content: string): string {
    FirstToken(Lower(content))
  }

  predicate IsCommand(content: string) {
    |content| > 0 && content[0] == '!'
  }

  const ReadOnlyCommands: set<string> := {"!checkdb", "!mypoints", "!listusers", "!help", "!debugschema"}

  predicate IsClanGatheringCommand(token: string) {
    token == "!clangathering" || token == "!cg"
  }

  function Classify(m: Message): Dispatch {
    if m.fromBot then Ignored
    else if IsCommand(m.content) then
      var token := CommandToken(m.content);
      if token in ReadOnlyCommands then ReadOnlyCommand(token)
      else if IsClanGatheringCommand(token) then
        match FindDate(m.content)
        case None => FormatError
        case Some(d) => CommandAward(d)
      else UnknownCommand
    else
      match FindAutoDate(m.content)
      case None => NoDate
      case Some(d) => AutoCandidate(d)
  }

  /** Messages from bots are ignored, whatever they say. */
  lemma BotsIgnored(m: Message)
    ensures m.fromBot <==> Classify(m) == Ignored
  {
  }

  /** A message starting with `!` is settled by its command token alone: it is never
      handed to automatic detection, and a message with any other token (of the same
      authorship) gets the same dispatch whatever else it contains, unless the token
      names the clan gathering command, which then looks for a date. */
  lemma CommandsNeverAutomatic(m: Message)
    requires !m.fromBot && IsCommand(m.content)
    ensures !Classify(m).AutoCandidate? && !Classify(m).NoDate?
    ensures !IsClanGatheringCommand(CommandToken(m.content)) ==>
      Classify(m) == if CommandToken(m.content) in ReadOnlyCommands
                     then ReadOnlyCommand(CommandToken(m.content)) else UnknownCommand
  {
  }

  /** Only the two clan gathering tokens lead to an award; `!cg` without a date is a
      format error, with one it carries the command pattern's leftmost match. */
  lemma ClanGatheringCommand(m: Message)
    requires !m.fromBot && IsCommand(m.content) && IsClanGatheringCommand(CommandToken(m.content))
    ensures FindDate(m.content).None? <==> Classify(m) == FormatError
    ensures FindDate(m.content).Some? ==> Classify(m) == CommandAward(FindDate(m.content).value)
  {
    assert "!cg" !in ReadOnlyCommands && "!clangathering" !in ReadOnlyCommands;
  }

  /** A message without `!` goes to automatic detection, and the groups it carries are
      those the command pattern would capture. */
  lemma AutomaticDetection(m: Message)
    requires !m.fromBot && !IsCommand(m.content)
    ensures Classify(m).AutoCandidate? || Classify(m) == NoDate
    ensures Classify(m) == NoDate <==> FindDate(m.content).None?
    ensures Classify(m).AutoCandidate? ==>
      CapturesOf(Some(Classify(m).date)) == CapturesOf(FindDate(m.content))
  {
    FindAutoDateCapturesAsFindDate(m.content);
  }

  /** Case does not matter in a command token: `!CG 13 Nov` is dispatched as `!cg`. */
  lemma CommandTokenIgnoresCase()
    ensures CommandToken("!CG 13 Nov") == "!cg"
  {
    var s := "!CG 13 Nov";
    forall i | 0 <= i < |s| ensures Lower(s)[i] == "!cg 13 nov"[i] {
      assert Lower(s)[i] == LowerChar(s[i]);
    }
    assert Lower(s) == "!cg 13 nov";
    assert FirstToken("!cg 13 nov") == "!cg";
  }
}
