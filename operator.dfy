/**
 * The operator's input rule, shared by the main loops of both controllers:
 * a line of input either quits, is rejected as not a number, is rejected as
 * a floor outside the building, or becomes a request whose announced
 * direction compares the floor with where the cabin stands.
 */
module Operator {
  import opened PyText

  /** The number of floors `main` configures. */
  const NumFloors := 10

  datatype Command =
    | Quit
    | InvalidInput
    | InvalidFloor(floor: int)
    | Go(floor: int, direction: int)

  /** `user_input.lower() == 'q'`: the only strings that lower-case to "q" are "q" and "Q". */
  predicate IsQuit(input: string) {
    input == "q" || input == "Q"
  }

  /**
   * What one line of input asks for. Quitting is checked first, then the line
   * is read with `int()`; a floor outside `[1, NumFloors]` is refused before
   * it reaches the queue; otherwise the announced direction is up when the
   * floor lies above the cabin and down in every other case, the cabin's own
   * floor included.
   */
  function Classify(input: string, currentFloor: int): (cmd: Command)
    ensures cmd.Quit? <==> IsQuit(input)
    ensures cmd.InvalidInput? <==> !IsQuit(input) && ParseInt(input).None?
    ensures cmd.InvalidFloor? ==> ParseInt(input) == Some(cmd.floor) && !(1 <= cmd.floor <= NumFloors)
    ensures cmd.Go? ==> ParseInt(input) == Some(cmd.floor) && 1 <= cmd.floor <= NumFloors
    ensures cmd.Go? ==> (cmd.direction == 1 <==> cmd.floor > currentFloor) && (cmd.direction == 1 || cmd.direction == -1)
  {
    if IsQuit(input) then Quit
    else match ParseInt(input)
      case None => InvalidInput
      case Some(floor) =>
        if floor < 1 || floor > NumFloors then InvalidFloor(floor)
        else Go(floor, if floor > currentFloor then 1 else -1)
  }

  /**
   * Typing a number: a floor of the building becomes a request, any other
   * number is refused as an invalid floor; it never quits and is never
   * taken for unreadable input.
   */
  lemma ClassifyNumber(n: int, currentFloor: int)
    ensures Classify(Decimal(n), currentFloor) ==
            if 1 <= n <= NumFloors then Go(n, if n > currentFloor then 1 else -1) else InvalidFloor(n)
  {
    ParseDecimal(n);
    DecimalNotQuit(n);
    ClassifyRead(Decimal(n), n, currentFloor);
  }

  /** A line `int()` reads as `n` that is not a quit is a request for floor `n` or an invalid floor. */
  lemma ClassifyRead(input: string, n: int, currentFloor: int)
    requires !IsQuit(input) && ParseInt(input) == Some(n)
    ensures Classify(input, currentFloor) ==
            if 1 <= n <= NumFloors then Go(n, if n > currentFloor then 1 else -1) else InvalidFloor(n)
  {
  }

  /** The text form of a number never quits. */
  lemma DecimalNotQuit(n: int)
    ensures !IsQuit(Decimal(n))
  {
    var s := Decimal(n);
    DecimalShape(n);
    assert IsDigit(s[0]) || s[0] == '-';
  }

  /** A separator before the digits is not skipped: `"\x1c5"` is refused as unreadable, not taken as floor 5. */
  lemma SeparatorRefused(currentFloor: int)
    ensures Classify("\U{1C}5", currentFloor) == InvalidInput
  {
    ParseIntRefusesSeparator("\U{1C}5", 0);
  }
}
