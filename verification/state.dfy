/** The protocol states of a connection (`State` in
    `rustmine_server/src/player.rs`) and the numbers they are sent as. */
module ConnState {
  import opened Ints
  import opened Wrappers

  datatype State = Handshake | Play | Login | Transfer | Status | Configuration

  /** `State::id`. */
  function Id(s: State): (n: u32)
    ensures n <= 5
    ensures n == 0 <==> s == Handshake
  {
    match s
    case Handshake => 0
    case Status => 1
    case Login => 2
    case Transfer => 3
    case Play => 4
    case Configuration => 5
  }

  /** The state a number stands for, when it stands for one. */
  function FromId(n: u32): (r: Option<State>)
    ensures r.Some? <==> n <= 5
  {
    if n == 0 then Some(Handshake)
    else if n == 1 then Some(Status)
    else if n == 2 then Some(Login)
    else if n == 3 then Some(Transfer)
    else if n == 4 then Some(Play)
    else if n == 5 then Some(Configuration)
    else None
  }

  /** Every state has its own number, and `FromId` reads it back. */
  lemma {:induction false} IdInverse(s: State)
    ensures FromId(Id(s)) == Some(s)
  {
  }

  /** `State::id` is injective. */
  lemma {:induction false} IdInjective(a: State, b: State)
    requires Id(a) == Id(b)
    ensures a == b
  {
    IdInverse(a);
    IdInverse(b);
  }
}
