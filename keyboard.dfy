/** The keyboard shortcuts of handleKeydown (script.js:207-220): which command a
    key press stands for, before that command touches the session. */
module Keyboard {

  /** The `key` of a keydown event. `Char` is a key whose value is one character;
      `Other` stands for every other multi-character key name (Enter, Shift, F1, ...). */
  datatype Key = ArrowLeft | ArrowRight | Char(c: char) | Other

  /** What a key press asks the session to do. */
  datatype Command = Prev | Next | Select(choice: nat) | ToggleMark | Ignore

  /** The digit key that selects choice `k` (zero-based): '1' for 0, ... */
  function DigitKey(k: nat): (c: char)
    requires k < 4
    ensures '1' <= c <= '4'
    ensures c as int - '1' as int == k
  {
    ('1' as int + k) as char
  }

  /** handleKeydown's decision for a key, when the current question has
      `choiceCount` choices. */
  function Dispatch(key: Key, choiceCount: int): (cmd: Command)
    ensures cmd == Prev <==> key == ArrowLeft
    ensures cmd == Next <==> key == ArrowRight
    ensures cmd == ToggleMark <==> key == Char('m') || key == Char('M')
    ensures cmd.Select? <==> key.Char? && '1' <= key.c <= '4' && key.c as int - '1' as int < choiceCount
    ensures cmd.Select? ==> cmd.choice < 4 && cmd.choice < choiceCount && key == Char(DigitKey(cmd.choice))
    ensures key.Other? ==> cmd == Ignore
  {
    match key
    case ArrowLeft => Prev
    case ArrowRight => Next
    case Char(c) =>
      if '1' <= c <= '4' then
        var choiceIndex := c as int - '1' as int;
        if choiceIndex < choiceCount then Select(choiceIndex) else Ignore
      else if c == 'm' || c == 'M' then ToggleMark
      else Ignore
    case Other => Ignore
  }

  /** A key that issues `cmd`: the inverse of Dispatch on the commands it can produce. */
  function KeyFor(cmd: Command): (key: Key)
    requires cmd != Ignore
    requires cmd.Select? ==> cmd.choice < 4
  {
    match cmd
    case Prev => ArrowLeft
    case Next => ArrowRight
    case Select(k) => Char(DigitKey(k))
    case ToggleMark => Char('m')
  }

  /** Every command except Ignore has a key, and digit keys reach exactly the
      choices the current question has (at most four). */
  lemma DispatchKeyFor(cmd: Command, choiceCount: int)
    requires cmd != Ignore
    requires cmd.Select? ==> cmd.choice < 4 && cmd.choice < choiceCount
    ensures Dispatch(KeyFor(cmd), choiceCount) == cmd
  {
  }

  /** A digit key beyond the question's choices does nothing. */
  lemma DigitBeyondChoicesIgnored(k: nat, choiceCount: int)
    requires k < 4 && choiceCount <= k
    ensures Dispatch(Char(DigitKey(k)), choiceCount) == Ignore
  {
  }
}
