// Completion scoreboard and release groups of flagcx/adaptor/net/net_transport.cc.
//
// `Board` is the abstract scoreboard: a map from tracked sequence numbers to their slots.
// `Scoreboard` is the fixed-capacity form the code runs, an array indexed by sequence modulo
// capacity; each of its methods is proved against the function on `Board` of the same name.

module NetTransport {
  import opened Results

  /** flagcxNetSubmitContext without the diagnostics sink. */
  datatype Context = Context(
    orderingKey: nat, groupId: nat, generation: nat, sequence: nat, flags: nat)

  datatype GroupState = Open | Sealed | Complete

  /** flagcxNetReleaseGroup; the group id is the key under which the group is stored. */
  datatype Group = Group(
    generation: nat, state: GroupState, pending: nat, members: nat,
    releaseAllowed: bool, firstError: Status)

  datatype Slot =
    | Free
    | Pending(context: Context, grouped: bool)
    | Retired(context: Context, grouped: bool, result: Status)

  datatype Board = Board(
    capacity: nat, generation: nat, next: nat,
    entries: map<nat, Slot>, firstError: Status, groups: map<nat, Group>)

  // ---------------------------------------------------------------- release groups

  function NewGroup(generation: nat): Group {
    Group(generation, Open, 0, 0, false, Success)
  }

  function GroupTrack(g: Group, context: Context): (r: (Group, Status)) {
    if g.state != Open || g.generation != context.generation ||
       g.pending == UINT32_MAX || g.members == UINT32_MAX
    then (g, InvalidArgument)
    else (g.(pending := g.pending + 1, members := g.members + 1), Success)
  }

  function GroupComplete(g: Group, result: Status): (r: (Group, Status)) {
    if g.state == Complete || g.pending == 0 then (g, InvalidArgument)
    else
      var g1 := g.(firstError := if result != Success && g.firstError == Success then result else g.firstError,
                   pending := g.pending - 1);
      if g1.pending == 0 && g1.state == Sealed
      then (g1.(releaseAllowed := g1.firstError == Success, state := Complete), Success)
      else (g1, Success)
  }

  function GroupSeal(g: Group): (r: (Group, Status)) {
    if g.state != Open then (g, InvalidArgument)
    else if g.pending == 0
    then (g.(releaseAllowed := g.firstError == Success, state := Complete), Success)
    else (g.(state := Sealed), Success)
  }

  /** The release decision: done, release allowed, and the group's result. */
  function GroupTest(g: Group): (r: (bool, bool, Status)) {
    if g.state == Complete then (true, g.releaseAllowed, g.firstError)
    else (false, false, Success)
  }

  // ---------------------------------------------------------------- abstract scoreboard

  /** Every tracked sequence lies in the window and is stored under its own number. */
  ghost predicate BoardOk(b: Board) {
    && b.capacity > 0
    && (forall s <- b.entries ::
          && b.next <= s < b.next + b.capacity
          && !b.entries[s].Free?
          && b.entries[s].context.sequence == s
          && b.entries[s].context.generation == b.generation
          && (b.entries[s].grouped ==> b.entries[s].context.groupId in b.groups))
  }

  function TrackSubmit(b: Board, c: Context, grouped: bool): (r: (Board, Status)) {
    if c.sequence == UINT64_MAX || c.generation != b.generation || c.sequence < b.next
    then (b, InvalidArgument)
    else if c.sequence - b.next >= b.capacity then (b, InProgress)
    else if c.sequence in b.entries then (b, InvalidArgument)
    else if grouped != (c.groupId != 0) then (b, InvalidArgument)
    else if !grouped then (b.(entries := b.entries[c.sequence := Pending(c, false)]), Success)
    else if c.groupId !in b.groups then (b, InvalidArgument)
    else
      var (g, st) := GroupTrack(b.groups[c.groupId], c);
      if st != Success then (b, st)
      else (b.(entries := b.entries[c.sequence := Pending(c, true)],
               groups := b.groups[c.groupId := g]), Success)
  }

  predicate Tracks(b: Board, c: Context) {
    && c.generation == b.generation
    && b.next <= c.sequence < b.next + b.capacity
    && c.sequence in b.entries
    && b.entries[c.sequence].Pending?
    && b.entries[c.sequence].context == c
  }

  function TrackCancel(b: Board, c: Context): (r: (Board, Status)) {
    if !Tracks(b, c) then (b, InvalidArgument)
    else if !b.entries[c.sequence].grouped then (b.(entries := b.entries - {c.sequence}), Success)
    else if c.groupId !in b.groups then (b, InvalidArgument)
    else
      var g := b.groups[c.groupId];
      if g.state != Open || g.pending == 0 || g.members == 0 then (b, InvalidArgument)
      else (b.(entries := b.entries - {c.sequence},
               groups := b.groups[c.groupId := g.(pending := g.pending - 1, members := g.members - 1)]),
            Success)
  }

  /** Publishes the contiguous retired prefix. */
  function Advance(b: Board): Board
    decreases |b.entries|
  {
    if b.next in b.entries && b.entries[b.next].Retired?
    then
      assert |b.entries.Keys - {b.next}| < |b.entries.Keys|;
      assert (b.entries - {b.next}).Keys == b.entries.Keys - {b.next};
      Advance(b.(entries := b.entries - {b.next}, next := b.next + 1))
    else b
  }

  /** Marks one pending entry retired, without publishing. */
  function MarkRetired(b: Board, c: Context, result: Status): Board
    requires Tracks(b, c)
  {
    b.(entries := b.entries[c.sequence := Retired(c, b.entries[c.sequence].grouped, result)],
       firstError := if result != Success && b.firstError == Success then result else b.firstError)
  }

  /** flagcxNetTrackCompletion: the new board, the status, and how far the prefix advanced. */
  function TrackCompletion(b: Board, c: Context, result: Status): (r: (Board, Status)) {
    if !Tracks(b, c) then (b, InvalidArgument)
    else if result == InProgress then (b, Success)
    else if !b.entries[c.sequence].grouped then (Advance(MarkRetired(b, c, result)), Success)
    else if c.groupId !in b.groups then (b, InvalidArgument)
    else
      var (g, st) := GroupComplete(b.groups[c.groupId], result);
      if st != Success then (b, st)
      else (Advance(MarkRetired(b.(groups := b.groups[c.groupId := g]), c, result)), Success)
  }
}
