// The neighbour state machine (nbrfsm.C, section 10.3 of RFC 2328) and what it does to the router's counters of
// adjacencies in progress, for all neighbours of a router together.

module NeighbourMachine {
  import opened Common

  datatype Event = Hello | Start | TwoWaySeen | NegDone | ExchDone | BadLsReq | LoadDone | Eval | DdRcvd | DdSeqNo
                 | OneWay | Destroy | Inactive | LlDown | AdjTmo

  datatype Action = Nothing | StartHellos | RestartInact | StartInact | Eval1 | Eval2 | Snapshot | ExchangeDone | Reeval
                  | RestartDd | Delete | ClearLists | HelloCheck

  function Rank(s: NbrState): nat {
    match s
    case Down => 0
    case Attempt => 1
    case Init => 2
    case TwoWay => 3
    case ExStart => 4
    case Exchange => 5
    case Loading => 6
    case Full => 7
  }

  // Each state is a bit, so that a transition can name several.
  function Bit(s: NbrState): bv8 {
    match s
    case Down => 0x01
    case Attempt => 0x02
    case Init => 0x04
    case TwoWay => 0x08
    case ExStart => 0x10
    case Exchange => 0x20
    case Loading => 0x40
    case Full => 0x80
  }

  const FLOOD: bv8 := 0xE0
  const ADJFORM: bv8 := 0xF0
  const BIDIR: bv8 := 0xF8
  const ACTIVE: bv8 := 0xFC
  const PRELIM: bv8 := 0x07
  const ANY: bv8 := 0xFF

  predicate In(s: NbrState, states: bv8) {
    states & Bit(s) != 0
  }

  datatype Tran = Tran(states: bv8, event: Event, action: Action, next: Option<NbrState>)

  // The transitions, of which the first that matches is taken.
  function NbrFsm(i: nat): Tran {
    match i
    case 0 => Tran(ACTIVE, Hello, RestartInact, None)
    case 1 => Tran(BIDIR, TwoWaySeen, Nothing, None)
    case 2 => Tran(Bit(Init), OneWay, Nothing, None)
    case 3 => Tran(Bit(Down), Hello, StartInact, Some(Init))
    case 4 => Tran(Bit(Down), Start, StartHellos, Some(Attempt))
    case 5 => Tran(Bit(Attempt), Hello, RestartInact, Some(Init))
    case 6 => Tran(Bit(Init), TwoWaySeen, Eval1, None)
    case 7 => Tran(Bit(Init), DdRcvd, Eval2, None)
    case 8 => Tran(Bit(TwoWay), DdRcvd, Eval2, None)
    case 9 => Tran(Bit(ExStart), NegDone, Snapshot, Some(Exchange))
    case 10 => Tran(Bit(Exchange), ExchDone, ExchangeDone, None)
    case 11 => Tran(Bit(Loading), LoadDone, Nothing, Some(Full))
    case 12 => Tran(Bit(TwoWay), Eval, Eval1, None)
    case 13 => Tran(ADJFORM, Eval, Reeval, None)
    case 14 => Tran(PRELIM, Eval, HelloCheck, None)
    case 15 => Tran(ADJFORM, AdjTmo, RestartDd, Some(TwoWay))
    case 16 => Tran(FLOOD, DdSeqNo, RestartDd, Some(TwoWay))
    case 17 => Tran(FLOOD, BadLsReq, RestartDd, Some(TwoWay))
    case 18 => Tran(ANY, Destroy, Delete, Some(Down))
    case 19 => Tran(ANY, LlDown, Delete, Some(Down))
    case 20 => Tran(ANY, Inactive, Delete, Some(Down))
    case _ => Tran(BIDIR, OneWay, ClearLists, Some(Init))
  }

  const ROWS: nat := 22

  // The first row from i on that matches.
  function FirstMatch(i: nat, s: NbrState, e: Event): Option<Tran>
    requires i <= ROWS
    decreases ROWS - i
  {
    if i == ROWS then None
    else if In(s, NbrFsm(i).states) && NbrFsm(i).event == e then Some(NbrFsm(i))
    else FirstMatch(i + 1, s, e)
  }

  // The table, as a function: what happens on an event, and the state before the action.
  function Response(s: NbrState, e: Event): Option<(Action, NbrState)> {
    match e
    case Hello => if s.Down? then Some((StartInact, Init)) else if s.Attempt? then Some((RestartInact, Init))
        else Some((RestartInact, s))
    case Start => if s.Down? then Some((StartHellos, Attempt)) else None
    case TwoWaySeen => if In(s, BIDIR) then Some((Nothing, s)) else if s.Init? then Some((Eval1, s)) else None
    case OneWay => if In(s, BIDIR) then Some((ClearLists, Init)) else if s.Init? then Some((Nothing, s)) else None
    case DdRcvd => if s.Init? || s.TwoWay? then Some((Eval2, s)) else None
    case NegDone => if s.ExStart? then Some((Snapshot, Exchange)) else None
    case ExchDone => if s.Exchange? then Some((ExchangeDone, s)) else None
    case LoadDone => if s.Loading? then Some((Nothing, Full)) else None
    case Eval => Some((if In(s, PRELIM) then HelloCheck else if s.TwoWay? then Eval1 else Reeval, s))
    case AdjTmo => if In(s, ADJFORM) then Some((RestartDd, TwoWay)) else None
    case DdSeqNo => if In(s, FLOOD) then Some((RestartDd, TwoWay)) else None
    case BadLsReq => if In(s, FLOOD) then Some((RestartDd, TwoWay)) else None
    case Destroy => Some((Delete, Down))
    case LlDown => Some((Delete, Down))
    case Inactive => Some((Delete, Down))
  }

  function Target(t: Tran, s: NbrState): NbrState {
    if t.next.Some? then t.next.value else s
  }

  // The row for this state and event, if there is one.
  function RowOf(s: NbrState, e: Event): nat {
    match e
    case Hello => if s.Down? then 3 else if s.Attempt? then 5 else 0
    case Start => if s.Down? then 4 else ROWS
    case TwoWaySeen => if In(s, BIDIR) then 1 else if s.Init? then 6 else ROWS
    case OneWay => if In(s, BIDIR) then 21 else if s.Init? then 2 else ROWS
    case DdRcvd => if s.Init? then 7 else if s.TwoWay? then 8 else ROWS
    case NegDone => if s.ExStart? then 9 else ROWS
    case ExchDone => if s.Exchange? then 10 else ROWS
    case LoadDone => if s.Loading? then 11 else ROWS
    case Eval => if In(s, PRELIM) then 14 else if s.TwoWay? then 12 else 13
    case AdjTmo => if In(s, ADJFORM) then 15 else ROWS
    case DdSeqNo => if In(s, FLOOD) then 16 else ROWS
    case BadLsReq => if In(s, FLOOD) then 17 else ROWS
    case Destroy => 18
    case LlDown => 19
    case Inactive => 20
  }

  lemma RowMisses(i: nat, s: NbrState, e: Event)
    requires i < RowOf(s, e)
    ensures NbrFsm(i).event != e || !In(s, NbrFsm(i).states)
  {
  }

  lemma {:induction false} SearchFinds(i: nat, s: NbrState, e: Event, row: nat)
    requires i <= row <= ROWS && row == RowOf(s, e)
    requires row < ROWS ==> In(s, NbrFsm(row).states) && NbrFsm(row).event == e
    ensures FirstMatch(i, s, e) == if row == ROWS then None else Some(NbrFsm(row))
    decreases ROWS - i
  {
    hide RowOf, NbrFsm, In;
    if i < row {
      RowMisses(i, s, e);
      SearchFinds(i + 1, s, e, row);
    }
  }

  lemma RowSays(s: NbrState, e: Event, row: nat)
    requires row == RowOf(s, e)
    ensures row <= ROWS && (row < ROWS ==> In(s, NbrFsm(row).states) && NbrFsm(row).event == e)
    ensures if row == ROWS then Response(s, e) == None
            else Response(s, e) == Some((NbrFsm(row).action, Target(NbrFsm(row), s)))
  {
    hide Rank;
  }

  // What the search in the table comes to.
  lemma TableResponse(s: NbrState, e: Event)
    ensures FirstMatch(0, s, e).Some? == Response(s, e).Some?
    ensures FirstMatch(0, s, e).Some? ==>
              Response(s, e).value == (FirstMatch(0, s, e).value.action, Target(FirstMatch(0, s, e).value, s))
  {
    hide *;
    RowSays(s, e, RowOf(s, e));
    SearchFinds(0, s, e, RowOf(s, e));
  }
}
