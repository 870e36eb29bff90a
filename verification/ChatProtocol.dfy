/** Messages of the chat protocol and the text commands a chat line may carry. */
module ChatProtocol {
  import opened Options

  /** A parsed message; "" stands for a field that is missing or empty, which the handlers treat alike. */
  datatype Message = Message(kind: string, nick: string, pass: string, text: string, to: string, room: string)

  const GENERAL := "general"

  function Command(kind: string, to: string, text: string, room: string): Message {
    Message(kind, "", "", text, to, room)
  }

  // ---------------------------------------------------------------- strings

  /** The white space `String.prototype.trim` removes. */
  predicate IsSpace(c: char) {
    var n := c as int;
    || 9 <= n <= 13 || n == 32 || n == 0xA0 || n == 0x1680 || 0x2000 <= n <= 0x200A
    || n == 0x2028 || n == 0x2029 || n == 0x202F || n == 0x205F || n == 0x3000 || n == 0xFEFF
  }

  function TrimStart(s: string): string {
    if s != "" && IsSpace(s[0]) then TrimStart(s[1..]) else s
  }

  function TrimEnd(s: string): string {
    if s != "" && IsSpace(s[|s|-1]) then TrimEnd(s[..|s|-1]) else s
  }

  function Trim(s: string): string {
    TrimEnd(TrimStart(s))
  }

  /** The index of the first blank, if any. */
  function FirstBlank(s: string): (i: Option<nat>)
    ensures i.Some? ==> i.value < |s| && s[i.value] == ' '
    ensures forall j :: 0 <= j < (if i.Some? then i.value else |s|) ==> s[j] != ' '
  {
    if s == "" then None
    else if s[0] == ' ' then Some(0)
    else
      var rest := FirstBlank(s[1..]);
      if rest.None? then None else Some(rest.value + 1)
  }

  // ---------------------------------------------------------------- commands

  /** `parseCommand`: the command in a chat line, if it is one.  It never yields a chat line again. */
  function ParseCommand(input: string): (cmd: Option<Message>)
    ensures cmd.Some? ==> cmd.value.kind in {"privmsg", "join", "leave", "list", "quit"}
    ensures cmd.Some? ==> Trim(input) != "" && Trim(input)[0] == '/'
  {
    var trimmed := Trim(input);
    if trimmed == "" || trimmed[0] != '/' then None
    else
      var blank := FirstBlank(trimmed);
      var cmd := if blank.None? then trimmed else trimmed[..blank.value];
      var rest := if blank.None? then "" else Trim(trimmed[blank.value + 1..]);
      if cmd == "/msg" then
        var target := FirstBlank(rest);
        if target.None? then None
        else Some(Command("privmsg", rest[..target.value], Trim(rest[target.value + 1..]), ""))
      else if cmd == "/join" then Some(Command("join", "", "", if rest == "" then GENERAL else rest))
      else if cmd == "/leave" then Some(Command("leave", "", "", ""))
      else if cmd == "/list" then Some(Command("list", "", "", ""))
      else if cmd == "/quit" then Some(Command("quit", "", "", ""))
      else None
  }
}
