/** The administrators' access-request table: each request is pending, approved or denied,
    and a decision sets the status of the requests with the chosen id. Decision buttons
    appear only on pending requests. */
module AccessRequests {
  import opened Seqs

  datatype Status = Pending | Approved | Denied

  datatype Request = Request(id: int, user: string, email: string, material: string,
                             date: string, status: Status, purpose: string)

  /** The two buttons, and the status each one records. */
  datatype Decision = Approve | Deny

  function Outcome(a: Decision): Status {
    match a
    case Approve => Approved
    case Deny => Denied
  }

  const InitialRequests: seq<Request> := [
    Request(1, "Maria Santos", "maria@email.com", "Administrative Records 1960-1970", "2024-01-15",
            Pending, "Graduate thesis on institutional history."),
    Request(2, "Jose Garcia", "jose@email.com", "Founding Charter Documents", "2024-01-14",
            Pending, "Legal verification for land titling research."),
    Request(3, "Ana Reyes", "ana@email.com", "Board Meeting Minutes 1980", "2024-01-14",
            Approved, "Student organization anniversary research."),
    Request(4, "Mark Ramos", "mark@email.com", "Restricted Personnel Records", "2024-01-13",
            Denied, "Personal curiosity.")
  ]

  function HasRequestId(id: int): Request -> bool {
    (r: Request) => r.id == id
  }

  function SetStatus(s: Status): Request -> Request {
    (r: Request) => r.(status := s)
  }

  /** `handleAction(id, action)`: every request with that id takes the decided status;
      every other request, and every other field, is left as it was. */
  function HandleAction(reqs: seq<Request>, id: int, a: Decision): (r: seq<Request>)
    ensures |r| == |reqs|
    ensures forall i :: 0 <= i < |reqs| && reqs[i].id != id ==> r[i] == reqs[i]
    ensures forall i :: 0 <= i < |reqs| && reqs[i].id == id ==> r[i].status == Outcome(a)
    ensures forall i :: 0 <= i < |reqs| ==> r[i].(status := reqs[i].status) == reqs[i]
  {
    MapWhere(reqs, HasRequestId(id), SetStatus(Outcome(a)))
  }

  /** A request id that is not in the table changes nothing. */
  lemma UnknownIdIsNoOp(reqs: seq<Request>, id: int, a: Decision)
    requires forall i :: 0 <= i < |reqs| ==> reqs[i].id != id
    ensures HandleAction(reqs, id, a) == reqs
  {
    MapWhereNoneSelected(reqs, HasRequestId(id), SetStatus(Outcome(a)));
  }

  /** Taking the same decision twice is taking it once. */
  lemma HandleActionIdempotent(reqs: seq<Request>, id: int, a: Decision)
    ensures HandleAction(HandleAction(reqs, id, a), id, a) == HandleAction(reqs, id, a)
  {
    MapWhereIdempotent(reqs, HasRequestId(id), SetStatus(Outcome(a)));
  }

  /** The later of two decisions on the same id is the one that stands. */
  lemma LaterDecisionWins(reqs: seq<Request>, id: int, a: Decision, b: Decision)
    ensures HandleAction(HandleAction(reqs, id, a), id, b) == HandleAction(reqs, id, b)
  {
  }

  /** The buttons a row shows: Deny and Approve for a pending request, none otherwise. */
  function OfferedDecisions(r: Request): (ds: seq<Decision>)
    ensures |ds| > 0 <==> r.status == Pending
  {
    if r.status == Pending then [Deny, Approve] else []
  }

  /** Once decided, a request offers no further decision. */
  lemma DecidedRequestsOfferNothing(reqs: seq<Request>, id: int, a: Decision)
    ensures forall i :: 0 <= i < |reqs| && reqs[i].id == id ==> OfferedDecisions(HandleAction(reqs, id, a)[i]) == []
  {
  }

  predicate IsPending(r: Request) {
    r.status == Pending
  }

  /** The number of pending requests: the length of the table filtered to pending ones. */
  function PendingCount(reqs: seq<Request>): (n: nat)
    ensures n <= |reqs|
    ensures n == |Filter(reqs, IsPending)|
  {
    if |reqs| == 0 then 0
    else (if reqs[0].status == Pending then 1 else 0) + PendingCount(reqs[1..])
  }

  /** A decision never creates pending requests, and it removes one whenever a pending
      request carries the id. */
  lemma {:induction false} DecisionReducesPending(reqs: seq<Request>, id: int, a: Decision)
    ensures PendingCount(HandleAction(reqs, id, a)) <= PendingCount(reqs)
    ensures (exists i :: 0 <= i < |reqs| && reqs[i].id == id && reqs[i].status == Pending)
            ==> PendingCount(HandleAction(reqs, id, a)) < PendingCount(reqs)
    decreases |reqs|
  {
    if |reqs| > 0 {
      var r := HandleAction(reqs, id, a);
      assert r[1..] == HandleAction(reqs[1..], id, a);
      DecisionReducesPending(reqs[1..], id, a);
      assert PendingCount(r) == (if r[0].status == Pending then 1 else 0) + PendingCount(r[1..]);
      assert PendingCount(reqs) == (if reqs[0].status == Pending then 1 else 0) + PendingCount(reqs[1..]);
      assert r[0].status == Pending ==> reqs[0].status == Pending && reqs[0].id != id;
      if exists i :: 0 <= i < |reqs| && reqs[i].id == id && reqs[i].status == Pending {
        var i :| 0 <= i < |reqs| && reqs[i].id == id && reqs[i].status == Pending;
        if i > 0 {
          assert reqs[1..][i - 1] == reqs[i];
        }
      }
    }
  }

  /** On the initial table, approving request 1 leaves only request 2 pending. */
  lemma ApproveFirstRequest()
    ensures PendingCount(HandleAction(InitialRequests, 1, Approve)) == 1
    ensures HandleAction(InitialRequests, 1, Approve)[0].status == Approved
  {
    var r := HandleAction(InitialRequests, 1, Approve);
    assert r[1..][1..][1..][1..] == [];
  }
}
