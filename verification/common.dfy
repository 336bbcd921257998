/**
 Values shared by the arbitration handler and the dispatcher of one elevator
 node: the job registry, the elevator status both of them read, bus messages,
 call-lamp writes, and the record of everything one operation does.
 */
module Common {

  datatype Option<T> = None | Some(value: T)

  /** Mathematical absolute value. Java's Math.abs agrees with it on every int
      except Integer.MIN_VALUE (module AsWritten models that case). */
  function Abs(x: int): nat
  {
    if x < 0 then -x else x
  }

  /** The job registry: signed target floor to delay in milliseconds. The sign
      of a target is the requested direction (positive is up), its magnitude
      the 1-indexed floor. Keys are unique, so re-inserting overwrites. */
  type Jobs = map<int, int>

  /** The delay that marks a cabin (inside-the-car) job, served first. */
  const CabinJob := -1

  /** Every delay is a bid (never negative) or the cabin marker. */
  ghost predicate WellFormed(jobs: Jobs)
  {
    forall t :: t in jobs ==> jobs[t] >= CabinJob
  }

  /** Node identity (the configured address, compared case-insensitively)
      and the number of floors of the building. */
  datatype Config = Config(nodeId: string, numFloors: int)

  /** What the handler and the dispatcher read from the elevator.
      `currentFloor` is 1-indexed; 0 means unknown or between floors. */
  datatype Status = Status(currentFloor: int, moving: bool, busy: bool)

  datatype Button = CallUp | CallDown

  /** One call-lamp write: button, 0-indexed floor, value (1 on, 0 off). */
  datatype LampWrite = LampWrite(button: Button, floor: int, value: int)

  /** A bus message: its type property, signed target floor and sender. */
  datatype Message = Message(kind: string, target: int, source: string)

  const RequestKind: string := "request"
  const TakeKind: string := "take"
  const CompleteKind: string := "completed"

  /** Everything one handler or dispatcher operation does: the registry it
      leaves, the lamps it writes, the messages it broadcasts, and the floor
      arguments it hands to the elevator's asynchronous go-to-floor command. */
  datatype Reaction = Reaction(jobs: Jobs, lamps: seq<LampWrite>, sent: seq<Message>, moves: seq<int>)

  /** An operation that changes nothing and emits nothing. */
  function Unchanged(jobs: Jobs): Reaction
  {
    Reaction(jobs, [], [], [])
  }

  /** The call lamp that belongs to a signed target: the up button for a
      positive target, the down button otherwise, at the 0-indexed floor. */
  function CallLamp(target: int, value: int): LampWrite
  {
    LampWrite(if target > 0 then CallUp else CallDown, Abs(target) - 1, value)
  }

  /** Lamp state of the panel: the last value written to each (button, floor). */
  type Lamps = map<(Button, int), int>

  function ApplyLamps(state: Lamps, writes: seq<LampWrite>): Lamps
    decreases |writes|
  {
    if writes == [] then state
    else ApplyLamps(state[(writes[0].button, writes[0].floor) := writes[0].value], writes[1..])
  }

  // ---------------------------------------------------------------------
  // Case-insensitive string comparison (String.equalsIgnoreCase), with the
  // case mapping restricted to ASCII letters.

  function ToUpper(c: char): char
  {
    if 'a' <= c <= 'z' then (c as int - 32) as char else c
  }

  function ToLower(c: char): char
  {
    if 'A' <= c <= 'Z' then (c as int + 32) as char else c
  }

  /** Two characters match when equal, equal after upper-casing, or equal
      after upper- then lower-casing, in that order of tests. */
  predicate CharsMatchIgnoringCase(c: char, d: char)
  {
    c == d || ToUpper(c) == ToUpper(d) || ToLower(ToUpper(c)) == ToLower(ToUpper(d))
  }

  predicate EqualsIgnoreCase(a: string, b: string)
  {
    |a| == |b| && forall i :: 0 <= i < |a| ==> CharsMatchIgnoringCase(a[i], b[i])
  }

  /** The string with every ASCII capital replaced by its lower-case letter. */
  function Lower(s: string): string
  {
    seq(|s|, i requires 0 <= i < |s| => ToLower(s[i]))
  }

  /** The comparison is an equivalence that ignores letter case: it holds of
      equal strings, is symmetric and transitive, relates every string to its
      lower-case form, and still tells different identities apart. */
  lemma EqualsIgnoreCaseProperties(a: string, b: string, c: string)
    ensures EqualsIgnoreCase(a, a)
    ensures EqualsIgnoreCase(a, b) ==> EqualsIgnoreCase(b, a)
    ensures EqualsIgnoreCase(a, b) && EqualsIgnoreCase(b, c) ==> EqualsIgnoreCase(a, c)
    ensures EqualsIgnoreCase(a, Lower(a))
    ensures EqualsIgnoreCase("Node-A", "node-a") && !EqualsIgnoreCase("node-a", "node-b")
  {
    assert CharsMatchIgnoringCase('N', 'n') && CharsMatchIgnoringCase('A', 'a');
    assert !CharsMatchIgnoringCase("node-a"[5], "node-b"[5]);
  }
}
