/** Submission of a booking: a fixed sequence of calls, any of which can fail, while the store can be edited. */
module BookingFlow {
  import opened Basics

  datatype PassengerInfo = PassengerInfo(id: string, details: string)

  /** The part of the store that submission reads and writes. */
  datatype FlowState = FlowState(
    selectedSeats: map<string, string>, baggage: map<string, int>, meals: map<string, string>, addons: seq<string>,
    passengerInfo: seq<PassengerInfo>, bookingCode: Option<string>, isLoading: bool, error: Option<string>)

  datatype Call =
    | CreateDraft
    | AddPassengers(bookingId: string, passengers: seq<PassengerInfo>)
    | SelectSeat(bookingId: string, passengerId: string, seatId: string, version: int)
    | AddAddons(bookingId: string, addons: seq<string>)
    | AddBaggage(bookingId: string, baggage: map<string, int>)
    | AddMeals(bookingId: string, meals: map<string, string>)
    | InitiateSepay(bookingId: string)
    | InitiatePayment(bookingId: string)

  /** What a call can answer: an id or a list of created passenger ids where the caller uses one, or an error. */
  datatype Reply = Ok(id: string, passengerIds: seq<string>) | Error(message: string)

  datatype SubmitResult = Submitted(bookingId: string) | NotSubmitted

  // ----- Decimal indices ---------------------------------------------------------------

  function Decimal(n: nat): (s: string)
    ensures |s| > 0
  {
    if n < 10 then [n as char + '0'] else Decimal(n / 10) + [(n % 10) as char + '0']
  }

  /** The number that decimal digits denote. */
  function Numeral(s: string): int {
    if s == "" then 0 else Numeral(s[..|s| - 1]) * 10 + (s[|s| - 1] as int - '0' as int)
  }

  /** Decimal writes n in decimal digits, without a leading zero. */
  lemma {:induction false} DecimalMeaning(n: nat)
    ensures Numeral(Decimal(n)) == n && (forall k :: 0 <= k < |Decimal(n)| ==> '0' <= Decimal(n)[k] <= '9')
    ensures |Decimal(n)| > 1 ==> Decimal(n)[0] != '0'
  {
    var s := Decimal(n);
    if n >= 10 {
      DecimalMeaning(n / 10);
      assert s[..|s| - 1] == Decimal(n / 10) && s[0] == Decimal(n / 10)[0];
      if |Decimal(n / 10)| == 1 { assert n / 10 > 0; }
    } else {
      assert s[..0] == "";
    }
  }

  lemma DecimalInjective(m: nat, n: nat)
    requires Decimal(m) == Decimal(n)
    ensures m == n
  {
    hide Decimal, Numeral;
    DecimalMeaning(m);
    DecimalMeaning(n);
  }

  // ----- The intended sequence of calls -----------------------------------------------------

  /** String(passengerInfo[i]?.id). */
  function FrontendId(st: FlowState, i: nat): string {
    if i < |st.passengerInfo| then st.passengerInfo[i].id else "undefined"
  }

  function Chosen(st: FlowState, key: string): Option<string> {
    if key in st.selectedSeats && st.selectedSeats[key] != "" then Some(st.selectedSeats[key]) else None
  }

  /** The seat of the i-th created passenger: by front-end id, else by decimal index. */
  function SeatOf(st: FlowState, i: nat): Option<string> {
    if Chosen(st, FrontendId(st, i)).Some? then Chosen(st, FrontendId(st, i)) else Chosen(st, Decimal(i))
  }

  /** Seat calls for the first n created passengers. */
  function SeatCalls(st: FlowState, bookingId: string, created: seq<string>, n: nat): seq<Call>
    requires n <= |created|
  {
    if n == 0 || |st.selectedSeats| == 0 then []
    else
      SeatCalls(st, bookingId, created, n - 1)
      + match SeatOf(st, n - 1) case Some(seat) => [SelectSeat(bookingId, created[n - 1], seat, 0)] case None => []
  }

  function OnlyIf(needed: bool, call: Call): seq<Call> {
    if needed then [call] else []
  }

  function Extras(st: FlowState, bookingId: string): seq<Call> {
    OnlyIf(|st.addons| > 0, AddAddons(bookingId, st.addons))
    + OnlyIf(|st.baggage| > 0, AddBaggage(bookingId, st.baggage))
    + OnlyIf(|st.meals| > 0, AddMeals(bookingId, st.meals))
  }

  function PaymentCall(bookingId: string, paymentMethod: string): Call {
    if paymentMethod == "atm" || paymentMethod == "sepay" then InitiateSepay(bookingId) else InitiatePayment(bookingId)
  }

  /** Between draft and payment: passengers, seats in index order, addons, baggage, meals. */
  function Details(st: FlowState, bookingId: string, created: seq<string>): seq<Call> {
    [AddPassengers(bookingId, st.passengerInfo)] + SeatCalls(st, bookingId, created, |created|) + Extras(st, bookingId)
  }

  /** Draft, details, one payment. */
  function Plan(st: FlowState, bookingId: string, created: seq<string>, paymentMethod: string): seq<Call> {
    [CreateDraft] + Details(st, bookingId, created) + [PaymentCall(bookingId, paymentMethod)]
  }

  lemma {:induction false} SeatCallsPrefix(st: FlowState, bookingId: string, created: seq<string>, n: nat, m: nat)
    requires n <= m <= |created|
    ensures SeatCalls(st, bookingId, created, n) <= SeatCalls(st, bookingId, created, m)
    decreases m
  {
    if n < m { SeatCallsPrefix(st, bookingId, created, n, m - 1); }
  }

  lemma NoSeatCalls(st: FlowState, bookingId: string, created: seq<string>)
    ensures SeatCalls(st, bookingId, created, 0) == []
    ensures |st.selectedSeats| == 0 ==> SeatCalls(st, bookingId, created, |created|) == []
  {
  }

  lemma SeatCallsStep(st: FlowState, bookingId: string, created: seq<string>, i: nat)
    requires i < |created| && |st.selectedSeats| > 0
    ensures SeatCalls(st, bookingId, created, i + 1) == SeatCalls(st, bookingId, created, i)
      + match SeatOf(st, i) case Some(seat) => [SelectSeat(bookingId, created[i], seat, 0)] case None => []
    ensures SeatCalls(st, bookingId, created, i + 1) <= SeatCalls(st, bookingId, created, |created|)
  {
    SeatCallsPrefix(st, bookingId, created, i + 1, |created|);
  }

  // ----- Conversations with the server --------------------------------------------------

  /** The id of the draft, once the first call has answered. */
  function DraftId(replies: seq<Reply>): string {
    if |replies| > 0 && replies[0].Ok? then replies[0].id else ""
  }

  /** The ids of the created passengers, once the second call has answered. */
  function CreatedIds(replies: seq<Reply>): seq<string> {
    if |replies| > 1 && replies[1].Ok? then replies[1].passengerIds else []
  }

  /** Every call has its reply, and only the last reply can be an error. */
  ghost predicate Answered(calls: seq<Call>, replies: seq<Reply>) {
    |calls| == |replies| && forall k :: 0 <= k < |replies| - 1 ==> replies[k].Ok?
  }

  function LastError(replies: seq<Reply>): Option<string> {
    if replies != [] && replies[|replies| - 1].Error? then Some(replies[|replies| - 1].message) else None
  }

  ghost predicate AllOk(replies: seq<Reply>) {
    forall k :: 0 <= k < |replies| ==> replies[k].Ok?
  }

  /** A stretch of calls follows its plan: all of it if every reply is good, else up to the first error. */
  ghost predicate Follows(calls: seq<Call>, replies: seq<Reply>, plan: seq<Call>, error: Option<string>) {
    && Answered(calls, replies) && calls <= plan
    && (error.None? ==> calls == plan && AllOk(replies))
    && (error.Some? ==> |replies| > 0 && replies[|replies| - 1] == Error(error.value))
  }

  /** What submission says to the server: the plan for the draft and the passengers that the server created. */
  ghost predicate Conversation(st: FlowState, paymentMethod: string, calls: seq<Call>, replies: seq<Reply>,
                               error: Option<string>) {
    Follows(calls, replies, Plan(st, DraftId(replies), CreatedIds(replies), paymentMethod), error)
  }

  /** The ids are those of the first two replies; a good conversation has said the whole plan for them. */
  lemma ConversationMeaning(st: FlowState, paymentMethod: string, calls: seq<Call>, replies: seq<Reply>,
                            error: Option<string>)
    requires Conversation(st, paymentMethod, calls, replies, error) && calls != []
    ensures |replies| > 1 && replies[1].Ok? ==>
      && replies[0].Ok? && calls <= Plan(st, replies[0].id, replies[1].passengerIds, paymentMethod)
      && (error.None? ==> calls == Plan(st, replies[0].id, replies[1].passengerIds, paymentMethod))
    ensures error.None? ==> |replies| >= 3 && replies[0].Ok? && replies[1].Ok?
    ensures |replies| == 1 ==> calls == [CreateDraft]
    ensures |replies| == 2 ==> replies[0].Ok? && calls == [CreateDraft, AddPassengers(replies[0].id, st.passengerInfo)]
  {
    hide SeatCalls, Extras, PaymentCall;
    PlanLength(st, DraftId(replies), CreatedIds(replies), paymentMethod);
  }

  /** Two stretches, the second only after the first went through. */
  lemma FollowsBoth(c: seq<Call>, r: seq<Reply>, p: seq<Call>, c': seq<Call>, r': seq<Reply>, p': seq<Call>,
                    error: Option<string>)
    requires Follows(c, r, p, None) && Follows(c', r', p', error)
    ensures Follows(c + c', r + r', p + p', error)
  {
  }

  /** An error ends the whole plan. */
  lemma FollowsFirst(c: seq<Call>, r: seq<Reply>, p: seq<Call>, p': seq<Call>, error: Option<string>)
    requires Follows(c, r, p, error) && error.Some?
    ensures Follows(c, r, p + p', error)
  {
  }

  const FAILURE_TEXT := "L\U{1ED7}i \U{111}\U{1EB7}t v\U{E9} ho\U{1EB7}c kh\U{1EDF}i t\U{1EA1}o thanh to\U{E1}n"

  /** error.message, or a fixed text if that is empty. */
  function FailureText(message: string): (s: string)
    ensures s != "" && (message != "" ==> s == message)
  {
    if message != "" then message else FAILURE_TEXT
  }

  // ----- The store ------------------------------------------------------------------------------

  /** How the import of the API module ends: whether it loads, the message if not, and the store by then. */
  datatype Import = Import(loaded: bool, message: string, store: FlowState)

  class BookingFlowStore {
    const server: nat -> Reply       // the reply to the n-th request
    const edits: nat -> FlowState    // what others have made of the store when that reply arrives
    var state: FlowState
    var sent: seq<Call>
    var replies: seq<Reply>

    constructor (server: nat -> Reply, edits: nat -> FlowState, initial: FlowState)
      ensures this.server == server && this.edits == edits && state == initial && sent == [] && replies == []
    {
      this.server, this.edits, state, sent, replies := server, edits, initial, [], [];
    }

    function ReplyAt(n: nat, k: nat): Reply {
      server(n + k)
    }

    /** The replies are those of the server from the n-th request on. */
    ghost predicate FromServer(n: nat, answers: seq<Reply>) {
      forall k :: 0 <= k < |answers| ==> answers[k] == ReplyAt(n, k)
    }

    /** The store after k requests from the n-th on, when it was `before` at first. */
    function EditedStore(n: nat, k: nat, before: FlowState): FlowState {
      if k == 0 then before else edits(n + k - 1)
    }

    /** Since a time when base had been sent, heard had been answered and the store was `before`: just these calls with
        these answers. */
    ghost predicate Stretch(base: seq<Call>, heard: seq<Reply>, before: FlowState, calls: seq<Call>,
                            answers: seq<Reply>)
      reads this
    {
      && sent == base + calls && replies == heard + answers && |calls| == |answers|
      && FromServer(|base|, answers) && state == EditedStore(|base|, |calls|, before)
    }

    /** Two stretches of requests one after the other. */
    lemma BothStretches(n: nat, before: FlowState, answers: seq<Reply>, more: seq<Reply>)
      requires FromServer(n, answers) && FromServer(n + |answers|, more)
      ensures FromServer(n, answers + more)
      ensures EditedStore(n + |answers|, |more|, EditedStore(n, |answers|, before))
           == EditedStore(n, |answers + more|, before)
    {
      forall k | 0 <= k < |answers + more| ensures (answers + more)[k] == ReplyAt(n, k) {
        if k >= |answers| { assert more[k - |answers|] == ReplyAt(n + |answers|, k - |answers|); }
      }
    }

    /** Send a request and wait for the server's reply; meanwhile others edit the store. */
    method Request(call: Call) returns (reply: Reply)
      modifies this
      ensures sent == old(sent) + [call] && replies == old(replies) + [reply]
      ensures reply == server(|old(sent)|) && state == edits(|old(sent)|)
      ensures FromServer(|old(sent)|, [reply]) && state == EditedStore(|old(sent)|, 1, old(state))
    {
      reply, state := server(|sent|), edits(|sent|);
      sent, replies := sent + [call], replies + [reply];
    }

    /** A call that is only made if there is something to send, after a stretch that went through. */
    method RequestIf(needed: bool, call: Call, ghost base: seq<Call>, ghost heard: seq<Reply>, ghost before: FlowState,
                     ghost calls: seq<Call>, ghost answers: seq<Reply>, ghost plan: seq<Call>)
      returns (error: Option<string>, ghost calls': seq<Call>, ghost answers': seq<Reply>)
      requires Stretch(base, heard, before, calls, answers) && Follows(calls, answers, plan, None)
      modifies this
      ensures Stretch(base, heard, before, calls', answers')
      ensures Follows(calls', answers', plan + OnlyIf(needed, call), error)
    {
      hide FromServer, EditedStore;
      error, calls', answers' := None, calls, answers;
      if needed {
        var reply := Request(call);
        BothStretches(|base|, before, answers, [reply]);
        calls', answers' := calls + [call], answers + [reply];
        if reply.Error? { error := Some(reply.message); }
      } else {
        assert plan + [] == plan;
      }
    }

    /** Whether every reply of the plan is good, if the n-th request is its first: decided by the server alone. */
    ghost predicate GoesWell(n: nat, st: FlowState, paymentMethod: string) {
      var first := [server(n), server(n + 1)];
      var plan := Plan(st, DraftId(first), CreatedIds(first), paymentMethod);
      forall k :: 0 <= k < |plan| ==> ReplyAt(n, k).Ok?
    }

    /** submitBooking, for every import, server and store edits. The last two results are, for the specification, what
        was said and answered. */
    method SubmitBooking(paymentMethod: string, api: Import)
      returns (result: SubmitResult, ghost calls: seq<Call>, ghost answers: seq<Reply>)
      modifies this
      ensures sent == old(sent) + calls && replies == old(replies) + answers && FromServer(|old(sent)|, answers)
      ensures result.Submitted? <==> api.loaded && GoesWell(|old(sent)|, old(state), paymentMethod)
      ensures !api.loaded ==>
        calls == [] && state == api.store.(isLoading := false, error := Some(FailureText(api.message)))
      ensures api.loaded ==>
        var error, store := LastError(answers), EditedStore(|old(sent)|, |calls|, api.store);
        && calls != [] && Conversation(old(state), paymentMethod, calls, answers, error)
        && (error.None? <==> result.Submitted?)
        && state == match error
                    case None => store.(bookingCode := Some(DraftId(answers)), isLoading := false)
                    case Some(message) => store.(isLoading := false, error := Some(FailureText(message)))
      ensures result.Submitted? ==> result.bookingId == DraftId(answers)
    {
      hide Conversation, Follows, Details, PaymentCall, DraftId, CreatedIds, FailureText, GoesWell,
           FromServer, EditedStore, LastError;
      ghost var n := |sent|;
      state := state.(isLoading := true, error := None);
      var st := state;
      calls, answers := [], [];
      state := api.store;
      if !api.loaded {
        NothingFromServer(n);
        result := Fail(api.message);
        return;
      }
      var draft := Request(CreateDraft);
      calls, answers := [CreateDraft], [draft];
      if draft.Error? {
        DraftFailed(old(state), paymentMethod, draft);
        Outcome(n, old(state), paymentMethod, calls, answers, Some(draft.message));
        result := Fail(draft.message);
        return;
      }
      var id := draft.id;
      var error;
      ghost var c, r;
      error, c, r := SendDetails(st, id);
      BothStretches(n, api.store, [draft], r);
      calls, answers := [CreateDraft] + c, [draft] + r;
      SameDetails(old(state), st, id, CreatedIds(answers));
      if error.Some? {
        DetailsFailed(old(state), paymentMethod, draft, c, r, error.value);
        Outcome(n, old(state), paymentMethod, calls, answers, error);
        result := Fail(error.value);
        return;
      }
      var payment := Request(PaymentCall(id, paymentMethod));
      BothStretches(n, api.store, answers, [payment]);
      PaymentAnswered(old(state), paymentMethod, draft, c, r, payment);
      calls, answers := calls + [PaymentCall(id, paymentMethod)], answers + [payment];
      if payment.Error? {
        Outcome(n, old(state), paymentMethod, calls, answers, Some(payment.message));
        result := Fail(payment.message);
        return;
      }
      Outcome(n, old(state), paymentMethod, calls, answers, None);
      state := state.(bookingCode := Some(id), isLoading := false);
      result := Submitted(id);
    }

    lemma NothingFromServer(n: nat)
      ensures FromServer(n, [])
    {
    }

    /** How a conversation ends is decided by the server alone. */
    lemma Outcome(n: nat, st: FlowState, paymentMethod: string, calls: seq<Call>, answers: seq<Reply>,
                  error: Option<string>)
      requires answers != [] && FromServer(n, answers) && Conversation(st, paymentMethod, calls, answers, error)
      ensures error.None? <==> GoesWell(n, st, paymentMethod)
      ensures error == LastError(answers)
    {
      hide Plan;
      var first := [server(n), server(n + 1)];
      assert answers[0] == ReplyAt(n, 0);
      if |answers| > 1 {
        assert answers[1] == ReplyAt(n, 1);
        assert DraftId(answers) == DraftId(first) && CreatedIds(answers) == CreatedIds(first);
      }
      PlanLength(st, DraftId(first), CreatedIds(first), paymentMethod);
      PlanLength(st, DraftId(answers), CreatedIds(answers), paymentMethod);
      var last := |answers| - 1;
      assert answers[last] == ReplyAt(n, last);
    }

    /** Everything between the draft and the payment, until one call fails. */
    method SendDetails(st: FlowState, id: string) returns (error: Option<string>, ghost calls: seq<Call>,
                                                           ghost answers: seq<Reply>)
      modifies this
      ensures Stretch(old(sent), old(replies), old(state), calls, answers)
      ensures forall draft :: Follows(calls, answers, Details(st, id, CreatedIds([draft] + answers)), error)
    {
      hide SeatCalls, Extras, Follows, FromServer, EditedStore;
      var passengers := Request(AddPassengers(id, st.passengerInfo));
      calls, answers := [AddPassengers(id, st.passengerInfo)], [passengers];
      if passengers.Error? {
        PassengersFailed(st, id, passengers);
        return Some(passengers.message), calls, answers;
      }
      PassengersAdded(st, id, passengers);
      var created := passengers.passengerIds;
      ghost var c, r;
      error, c, r := RequestSeats(st, id, created);
      DetailsSplit(st, id, created);
      FollowsBoth(calls, answers, calls, c, r, SeatCalls(st, id, created, |created|), error);
      BothStretches(|old(sent)|, old(state), answers, r);
      ghost var soFar := calls + SeatCalls(st, id, created, |created|);
      calls, answers := calls + c, answers + r;
      if error.Some? {
        FollowsFirst(calls, answers, soFar, Extras(st, id), error);
        return;
      }
      error, c, r := RequestExtras(st, id);
      FollowsBoth(calls, answers, soFar, c, r, Extras(st, id), error);
      BothStretches(|old(sent)|, old(state), answers, r);
      calls, answers := calls + c, answers + r;
    }

    /** Report failure in the store. */
    method Fail(message: string) returns (result: SubmitResult)
      modifies this`state
      ensures result == NotSubmitted && state == old(state).(isLoading := false, error := Some(FailureText(message)))
    {
      state := state.(isLoading := false, error := Some(FailureText(message)));
      result := NotSubmitted;
    }

    /** One seat request per created passenger that has a chosen seat, in index order, until one fails. */
    method RequestSeats(st: FlowState, bookingId: string, created: seq<string>)
      returns (error: Option<string>, ghost calls: seq<Call>, ghost answers: seq<Reply>)
      modifies this
      ensures Stretch(old(sent), old(replies), old(state), calls, answers)
      ensures Follows(calls, answers, SeatCalls(st, bookingId, created, |created|), error)
    {
      hide SeatCalls, SeatOf;
      error, calls, answers := None, [], [];
      NoSeatCalls(st, bookingId, created);
      if |st.selectedSeats| > 0 && |created| > 0 {
        var i := 0;
        while i < |created|
          invariant 0 <= i <= |created|
          invariant sent == old(sent) + calls && replies == old(replies) + answers && |calls| == |answers|
          invariant FromServer(|old(sent)|, answers) && state == EditedStore(|old(sent)|, |calls|, old(state))
          invariant Follows(calls, answers, SeatCalls(st, bookingId, created, i), None)
        {
          var seat := SeatOf(st, i);
          SeatCallsStep(st, bookingId, created, i);
          if seat.Some? {
            var call := SelectSeat(bookingId, created[i], seat.value, 0);
            var reply := Request(call);
            BothStretches(|old(sent)|, old(state), answers, [reply]);
            calls, answers := calls + [call], answers + [reply];
            if reply.Error? {
              return Some(reply.message), calls, answers;
            }
          }
          i := i + 1;
        }
      }
    }

    method RequestExtras(st: FlowState, bookingId: string)
      returns (error: Option<string>, ghost calls: seq<Call>, ghost answers: seq<Reply>)
      modifies this
      ensures Stretch(old(sent), old(replies), old(state), calls, answers)
      ensures Follows(calls, answers, Extras(st, bookingId), error)
    {
      hide Follows, OnlyIf, Stretch;
      var addons := AddAddons(bookingId, st.addons);
      var baggage := AddBaggage(bookingId, st.baggage);
      var meals := AddMeals(bookingId, st.meals);
      ghost var p := OnlyIf(|st.addons| > 0, addons);
      ghost var q := OnlyIf(|st.baggage| > 0, baggage);
      ghost var t := OnlyIf(|st.meals| > 0, meals);
      ghost var base, heard, before := sent, replies, state;
      NothingSaid();
      ExtrasSplit(st, bookingId);
      error, calls, answers := RequestIf(|st.addons| > 0, addons, base, heard, before, [], [], []);
      if error.Some? {
        FollowsFirst(calls, answers, [] + p, q + t, error);
        return;
      }
      error, calls, answers := RequestIf(|st.baggage| > 0, baggage, base, heard, before, calls, answers, [] + p);
      if error.Some? {
        FollowsFirst(calls, answers, [] + p + q, t, error);
        return;
      }
      error, calls, answers := RequestIf(|st.meals| > 0, meals, base, heard, before, calls, answers, [] + p + q);
    }

    lemma NothingSaid()
      ensures Stretch(sent, replies, state, [], []) && Follows([], [], [], None)
    {
    }
  }

  lemma ExtrasSplit(st: FlowState, bookingId: string)
    ensures var p, q, t := OnlyIf(|st.addons| > 0, AddAddons(bookingId, st.addons)),
                           OnlyIf(|st.baggage| > 0, AddBaggage(bookingId, st.baggage)),
                           OnlyIf(|st.meals| > 0, AddMeals(bookingId, st.meals));
            Extras(st, bookingId) == [] + p + q + t == [] + p + (q + t)
  {
  }

  lemma PassengersFailed(st: FlowState, id: string, reply: Reply)
    requires reply.Error?
    ensures Follows([AddPassengers(id, st.passengerInfo)], [reply], Details(st, id, []), Some(reply.message))
  {
  }

  lemma PassengersAdded(st: FlowState, id: string, reply: Reply)
    requires reply.Ok?
    ensures Follows([AddPassengers(id, st.passengerInfo)], [reply], [AddPassengers(id, st.passengerInfo)], None)
  {
  }

  lemma PlanLength(st: FlowState, id: string, created: seq<string>, paymentMethod: string)
    ensures |Plan(st, id, created, paymentMethod)| >= 3
  {
    hide SeatCalls, Extras;
  }

  lemma PlanSplit(st: FlowState, id: string, created: seq<string>, paymentMethod: string)
    ensures var pay := [PaymentCall(id, paymentMethod)];
            Plan(st, id, created, paymentMethod) == [CreateDraft] + Details(st, id, created) + pay
            == [CreateDraft] + (Details(st, id, created) + pay)
  {
  }

  lemma DetailsSplit(st: FlowState, id: string, created: seq<string>)
    ensures var calls := SeatCalls(st, id, created, |created|);
            Details(st, id, created) == [AddPassengers(id, st.passengerInfo)] + calls + Extras(st, id)
            == [AddPassengers(id, st.passengerInfo)] + (calls + Extras(st, id))
  {
  }

  lemma DraftFailed(st: FlowState, paymentMethod: string, draft: Reply)
    requires draft.Error?
    ensures Conversation(st, paymentMethod, [CreateDraft], [draft], Some(draft.message))
  {
    hide Details, PaymentCall;
  }

  lemma DetailsFailed(st: FlowState, paymentMethod: string, draft: Reply, c: seq<Call>, r: seq<Reply>, message: string)
    requires draft.Ok? && Follows(c, r, Details(st, draft.id, CreatedIds([draft] + r)), Some(message))
    ensures Conversation(st, paymentMethod, [CreateDraft] + c, [draft] + r, Some(message))
    ensures ([draft] + r)[|r|] == Error(message)
  {
    hide Details, PaymentCall;
    var id, created := draft.id, CreatedIds([draft] + r);
    PlanSplit(st, id, created, paymentMethod);
    FollowsBoth([CreateDraft], [draft], [CreateDraft], c, r, Details(st, id, created), Some(message));
    FollowsFirst([CreateDraft] + c, [draft] + r, [CreateDraft] + Details(st, id, created),
                 [PaymentCall(id, paymentMethod)], Some(message));
  }

  lemma PaymentAnswered(st: FlowState, paymentMethod: string, draft: Reply, c: seq<Call>, r: seq<Reply>, payment: Reply)
    requires draft.Ok? && Follows(c, r, Details(st, draft.id, CreatedIds([draft] + r)), None)
    ensures var answers := [draft] + r + [payment];
      && DraftId(answers) == draft.id
      && Conversation(st, paymentMethod, [CreateDraft] + c + [PaymentCall(draft.id, paymentMethod)], answers,
                      if payment.Ok? then None else Some(payment.message))
  {
    hide PaymentCall, SeatCalls, Extras;
    var id, created := draft.id, CreatedIds([draft] + r);
    assert |r| > 0;
    var answers := [draft] + r + [payment];
    assert answers[0] == draft && answers[1] == r[0];
    SplitPayment(st, paymentMethod, draft, c, r, payment);
  }

  lemma SplitPayment(st: FlowState, paymentMethod: string, draft: Reply, c: seq<Call>, r: seq<Reply>, payment: Reply)
    requires draft.Ok? && Follows(c, r, Details(st, draft.id, CreatedIds([draft] + r)), None)
    ensures Follows([CreateDraft] + c + [PaymentCall(draft.id, paymentMethod)], [draft] + r + [payment],
                    Plan(st, draft.id, CreatedIds([draft] + r), paymentMethod),
                    if payment.Ok? then None else Some(payment.message))
  {
    hide PaymentCall, Details, CreatedIds;
    var id, created := draft.id, CreatedIds([draft] + r);
    var pay := [PaymentCall(id, paymentMethod)];
    var error := if payment.Ok? then None else Some(payment.message);
    PlanSplit(st, id, created, paymentMethod);
    FollowsBoth([CreateDraft], [draft], [CreateDraft], c, r, Details(st, id, created), None);
    FollowsBoth([CreateDraft] + c, [draft] + r, [CreateDraft] + Details(st, id, created), pay, [payment], pay, error);
  }

  /** The flags that submission sets first do not enter the plan. */
  lemma {:induction false} SameSeats(st: FlowState, st': FlowState, bookingId: string, created: seq<string>, n: nat)
    requires n <= |created| && st' == st.(isLoading := true, error := None)
    ensures SeatCalls(st, bookingId, created, n) == SeatCalls(st', bookingId, created, n)
  {
    if n > 0 { SameSeats(st, st', bookingId, created, n - 1); }
  }

  lemma SameDetails(st: FlowState, st': FlowState, bookingId: string, created: seq<string>)
    requires st' == st.(isLoading := true, error := None)
    ensures Details(st, bookingId, created) == Details(st', bookingId, created)
  {
    SameSeats(st, st', bookingId, created, |created|);
  }

  // ----- What the plan says ----------------------------------------------------------------

  /** The seat of the i-th created passenger, read off the store: the one under the id of the i-th passenger of the
      form (or "undefined" if there is none), unless it is missing or empty, else the one under the decimal index. */
  lemma SeatOfMeaning(st: FlowState, i: nat)
    ensures var key := if i < |st.passengerInfo| then st.passengerInfo[i].id else "undefined";
      if key in st.selectedSeats && st.selectedSeats[key] != "" then SeatOf(st, i) == Some(st.selectedSeats[key])
      else if Decimal(i) in st.selectedSeats && st.selectedSeats[Decimal(i)] != ""
      then SeatOf(st, i) == Some(st.selectedSeats[Decimal(i)])
      else SeatOf(st, i) == None
  {
    hide Decimal;
  }

  /** The calls are one for each of the first n created passengers who has a seat, with that seat, in the order of the
      passengers; who[p] is the passenger of call p. */
  ghost predicate SeatList(st: FlowState, bookingId: string, created: seq<string>, n: nat, calls: seq<Call>,
                           who: seq<nat>)
    requires n <= |created|
  {
    && |who| == |calls|
    && (forall p :: 0 <= p < |who| ==>
          && who[p] < n && SeatOf(st, who[p]).Some?
          && calls[p] == SelectSeat(bookingId, created[who[p]], SeatOf(st, who[p]).value, 0))
    && (forall p, q :: 0 <= p < q < |who| ==> who[p] < who[q])
    && (forall i: nat :: i < n && SeatOf(st, i).Some? ==> i in who)
  }

  lemma {:induction false} SeatCallsMeaning(st: FlowState, bookingId: string, created: seq<string>, n: nat)
    returns (who: seq<nat>)
    requires n <= |created|
    ensures SeatList(st, bookingId, created, n, SeatCalls(st, bookingId, created, n), who)
  {
    hide SeatOf, SeatCalls, SeatList;
    who := [];
    NoSeatCalls(st, bookingId, created);
    if |st.selectedSeats| == 0 {
      NobodySeated(st, bookingId, created, n);
    } else if n == 0 {
      EmptySeatList(st, bookingId, created);
    } else {
      var front := SeatCallsMeaning(st, bookingId, created, n - 1);
      SeatCallsStep(st, bookingId, created, n - 1);
      who := if SeatOf(st, n - 1).Some? then front + [n - 1] else front;
      var calls := SeatCalls(st, bookingId, created, n - 1);
      assert calls + [] == calls;
      OneMoreSeat(st, bookingId, created, n - 1, calls, front);
    }
  }

  lemma EmptySeatList(st: FlowState, bookingId: string, created: seq<string>)
    ensures SeatList(st, bookingId, created, 0, [], [])
  {
  }

  lemma NobodySeated(st: FlowState, bookingId: string, created: seq<string>, n: nat)
    requires n <= |created| && |st.selectedSeats| == 0
    ensures SeatList(st, bookingId, created, n, SeatCalls(st, bookingId, created, n), [])
  {
    hide SeatOf;
    forall i: nat ensures SeatOf(st, i).None? { NoSeats(st, i); }
  }

  lemma OneMoreSeat(st: FlowState, bookingId: string, created: seq<string>, n: nat, calls: seq<Call>, who: seq<nat>)
    requires n < |created| && SeatList(st, bookingId, created, n, calls, who)
    ensures match SeatOf(st, n)
      case Some(seat) =>
        SeatList(st, bookingId, created, n + 1, calls + [SelectSeat(bookingId, created[n], seat, 0)], who + [n])
      case None => SeatList(st, bookingId, created, n + 1, calls, who)
  {
    hide SeatOf;
  }

  lemma {:induction false} SeatCallsAreSeats(st: FlowState, bookingId: string, created: seq<string>, n: nat)
    requires n <= |created|
    ensures forall p :: 0 <= p < |SeatCalls(st, bookingId, created, n)| ==>
      SeatCalls(st, bookingId, created, n)[p].SelectSeat?
  {
    hide SeatOf;
    if n > 0 { SeatCallsAreSeats(st, bookingId, created, n - 1); }
  }

  lemma NoSeats(st: FlowState, i: nat)
    ensures |st.selectedSeats| == 0 ==> SeatOf(st, i).None?
  {
    if SeatOf(st, i).Some? { SomeSeatChosen(st, i); }
  }

  /** A created passenger whose front-end id has a chosen seat is requested on that very seat. */
  lemma OwnSeatRequested(st: FlowState, bookingId: string, created: seq<string>, paymentMethod: string, i: nat)
    requires i < |created| && i < |st.passengerInfo| && st.passengerInfo[i].id in st.selectedSeats
    requires st.selectedSeats[st.passengerInfo[i].id] != ""
    ensures SelectSeat(bookingId, created[i], st.selectedSeats[st.passengerInfo[i].id], 0)
         in Plan(st, bookingId, created, paymentMethod)
  {
    hide SeatOf, SeatCalls, Plan;
    SeatOfMeaning(st, i);
    var who := SeatCallsMeaning(st, bookingId, created, |created|);
    PlanParts(st, bookingId, created, paymentMethod);
    var p :| 0 <= p < |who| && who[p] == i;
    var plan, seats := Plan(st, bookingId, created, paymentMethod), SeatCalls(st, bookingId, created, |created|);
    assert plan[2 + p] == plan[2..2 + |seats|][p] == seats[p];
  }

  /** The plan in its parts. */
  lemma PlanIs(st: FlowState, bookingId: string, created: seq<string>, paymentMethod: string)
    ensures Plan(st, bookingId, created, paymentMethod)
         == [CreateDraft, AddPassengers(bookingId, st.passengerInfo)] + SeatCalls(st, bookingId, created, |created|)
            + Extras(st, bookingId) + [PaymentCall(bookingId, paymentMethod)]
  {
    hide SeatCalls, Extras, PaymentCall;
  }

  /** Draft and passengers come first, and the last call is the one payment, by Sepay exactly for "atm" and "sepay". */
  lemma PlanEnds(st: FlowState, bookingId: string, created: seq<string>, paymentMethod: string)
    ensures var plan := Plan(st, bookingId, created, paymentMethod);
      && |plan| >= 3 && plan[0] == CreateDraft && plan[1] == AddPassengers(bookingId, st.passengerInfo)
      && plan[|plan| - 1] == (if paymentMethod == "atm" || paymentMethod == "sepay"
                              then InitiateSepay(bookingId) else InitiatePayment(bookingId))
      && forall p :: 0 <= p < |plan| - 1 ==> !plan[p].InitiateSepay? && !plan[p].InitiatePayment?
  {
    hide SeatCalls, Plan;
    SeatCallsAreSeats(st, bookingId, created, |created|);
    PlanIs(st, bookingId, created, paymentMethod);
    ExtrasAreExtras(st, bookingId);
    hide Extras;
  }

  lemma ExtrasAreExtras(st: FlowState, bookingId: string)
    ensures forall p :: 0 <= p < |Extras(st, bookingId)| ==> 3 <= Stage(Extras(st, bookingId)[p]) <= 5
    ensures InOrder(Extras(st, bookingId))
  {
  }

  /** Each of the three extras is in the plan exactly if its store field is not empty, and carries that field. */
  lemma ExtrasMeaning(st: FlowState, bookingId: string, created: seq<string>, paymentMethod: string, call: Call)
    requires call.AddAddons? || call.AddBaggage? || call.AddMeals?
    ensures call in Plan(st, bookingId, created, paymentMethod) <==>
      || (st.addons != [] && call == AddAddons(bookingId, st.addons))
      || (st.baggage != map[] && call == AddBaggage(bookingId, st.baggage))
      || (st.meals != map[] && call == AddMeals(bookingId, st.meals))
  {
    hide SeatCalls, Plan;
    EmptyMaps(st);
    SeatCallsAreSeats(st, bookingId, created, |created|);
    PlanIs(st, bookingId, created, paymentMethod);
    assert call !in SeatCalls(st, bookingId, created, |created|);
    assert call != CreateDraft && !call.AddPassengers? && call != PaymentCall(bookingId, paymentMethod);
  }

  lemma EmptyMaps(st: FlowState)
    ensures |st.baggage| == 0 <==> st.baggage == map[]
    ensures |st.meals| == 0 <==> st.meals == map[]
  {
  }

  /** The kind of a call, in the order of the flow. */
  function Stage(call: Call): nat {
    match call
    case CreateDraft => 0
    case AddPassengers(_, _) => 1
    case SelectSeat(_, _, _, _) => 2
    case AddAddons(_, _) => 3
    case AddBaggage(_, _) => 4
    case AddMeals(_, _) => 5
    case _ => 6
  }

  /** One kind after the other, and only seats repeat. */
  ghost predicate InOrder(calls: seq<Call>) {
    forall p, q :: 0 <= p < q < |calls| ==>
      Stage(calls[p]) < Stage(calls[q]) || (calls[p].SelectSeat? && calls[q].SelectSeat?)
  }

  lemma OrderedBoth(a: seq<Call>, b: seq<Call>, m: nat)
    requires InOrder(a) && InOrder(b)
    requires forall p :: 0 <= p < |a| ==> Stage(a[p]) <= m
    requires forall q :: 0 <= q < |b| ==> Stage(b[q]) > m
    ensures InOrder(a + b)
  {
    hide Stage;
  }

  /** Draft, passengers, seats, add-ons, baggage, meals, payment. */
  lemma PlanInOrder(st: FlowState, bookingId: string, created: seq<string>, paymentMethod: string)
    ensures InOrder(Plan(st, bookingId, created, paymentMethod))
  {
    hide SeatCalls, Plan;
    SeatCallsAreSeats(st, bookingId, created, |created|);
    PlanIs(st, bookingId, created, paymentMethod);
    ExtrasAreExtras(st, bookingId);
    hide Extras;
    var front := [CreateDraft, AddPassengers(bookingId, st.passengerInfo)];
    var seats, extras := SeatCalls(st, bookingId, created, |created|), Extras(st, bookingId);
    OrderedBoth(front, seats, 1);
    OrderedBoth(front + seats, extras, 2);
    OrderedBoth(front + seats + extras, [PaymentCall(bookingId, paymentMethod)], 5);
  }

  // ----- Which seats are requested twice ---------------------------------------------------

  /** No two keys share a chosen seat. */
  ghost predicate InjectiveSeats(st: FlowState) {
    forall k, k' :: k in st.selectedSeats && k' in st.selectedSeats && k != k' && st.selectedSeats[k] != "" ==>
      st.selectedSeats[k] != st.selectedSeats[k']
  }

  /** The key under which the seat of the i-th created passenger is looked up in the end. */
  function UsedKey(st: FlowState, i: nat): string {
    if Chosen(st, FrontendId(st, i)).Some? then FrontendId(st, i) else Decimal(i)
  }

  /** Two of the first n created passengers get their seats from one key. */
  ghost predicate SharedKey(st: FlowState, n: nat) {
    exists i: nat, j: nat :: i < j < n && SharesKey(st, i, j)
  }

  ghost predicate SharesKey(st: FlowState, i: nat, j: nat) {
    SeatOf(st, i).Some? && SeatOf(st, j).Some? && UsedKey(st, i) == UsedKey(st, j)
  }

  lemma SeatsByKey(st: FlowState, i: nat, j: nat)
    requires InjectiveSeats(st) && SeatOf(st, i).Some? && SeatOf(st, j).Some?
    ensures SeatOf(st, i) == SeatOf(st, j) <==> UsedKey(st, i) == UsedKey(st, j)
  {
    hide Decimal;
    var k, k' := UsedKey(st, i), UsedKey(st, j);
    assert SeatOf(st, i) == Chosen(st, k) && SeatOf(st, j) == Chosen(st, k');
  }

  ghost predicate NoSeatTwice(calls: seq<Call>) {
    forall p, q :: 0 <= p < q < |calls| && calls[p].SelectSeat? && calls[q].SelectSeat? ==>
      calls[p].seatId != calls[q].seatId
  }

  lemma {:induction false} SeatCallsOnce(st: FlowState, bookingId: string, created: seq<string>, n: nat)
    requires n <= |created| && InjectiveSeats(st) && !SharedKey(st, n)
    ensures NoSeatTwice(SeatCalls(st, bookingId, created, n))
    ensures forall p :: 0 <= p < |SeatCalls(st, bookingId, created, n)| ==>
      var call := SeatCalls(st, bookingId, created, n)[p];
      call.SelectSeat? && exists i: nat :: i < n && SeatOf(st, i) == Some(call.seatId)
  {
    hide SeatOf, UsedKey, InjectiveSeats;
    if n > 0 && |st.selectedSeats| > 0 {
      assert !SharedKey(st, n - 1);
      SeatCallsOnce(st, bookingId, created, n - 1);
      var front := SeatCalls(st, bookingId, created, n - 1);
      if SeatOf(st, n - 1).Some? {
        forall p | 0 <= p < |front| ensures front[p].seatId != SeatOf(st, n - 1).value {
          var i: nat :| i < n - 1 && SeatOf(st, i) == Some(front[p].seatId);
          SeatsByKey(st, i, n - 1);
          assert !SharesKey(st, i, n - 1);
        }
      }
    }
  }

  lemma SomeSeatChosen(st: FlowState, i: nat)
    requires SeatOf(st, i).Some?
    ensures |st.selectedSeats| > 0
  {
    hide Decimal;
  }

  /** Passengers i and j, both with a chosen seat, have their calls at two positions of the list. */
  lemma SeatCallAt(st: FlowState, bookingId: string, created: seq<string>, i: nat, j: nat, n: nat) returns (p: nat,
                                                                                                            q: nat)
    requires i < j < n <= |created| && SeatOf(st, i).Some? && SeatOf(st, j).Some?
    ensures var calls := SeatCalls(st, bookingId, created, n);
      && p < q < |calls|
      && calls[p] == SelectSeat(bookingId, created[i], SeatOf(st, i).value, 0)
      && calls[q] == SelectSeat(bookingId, created[j], SeatOf(st, j).value, 0)
  {
    hide SeatOf, SeatCalls;
    SomeSeatChosen(st, i);
    p, q := |SeatCalls(st, bookingId, created, i)|, |SeatCalls(st, bookingId, created, j)|;
    SeatCallsStep(st, bookingId, created, i);
    SeatCallsStep(st, bookingId, created, j);
    SeatCallsPrefix(st, bookingId, created, i + 1, j);
    SeatCallsPrefix(st, bookingId, created, i + 1, n);
    SeatCallsPrefix(st, bookingId, created, j + 1, n);
  }

  /** Some seat is requested twice exactly if two passengers with a chosen seat share the key it is found under. */
  lemma SeatCallsOnceIff(st: FlowState, bookingId: string, created: seq<string>, n: nat)
    requires n <= |created| && InjectiveSeats(st)
    ensures NoSeatTwice(SeatCalls(st, bookingId, created, n)) <==> !SharedKey(st, n)
  {
    hide SeatOf, UsedKey, InjectiveSeats, SeatCalls;
    if SharedKey(st, n) {
      var i: nat, j: nat :| i < j < n && SharesKey(st, i, j);
      SeatsByKey(st, i, j);
      var p, q := SeatCallAt(st, bookingId, created, i, j, n);
    } else {
      SeatCallsOnce(st, bookingId, created, n);
    }
  }

  // ----- ... lifted to conversations ---------------------------------------------------------

  /** The calls before the seats, the calls for the seats, and the rest. */
  lemma PlanParts(st: FlowState, bookingId: string, created: seq<string>, paymentMethod: string)
    ensures var plan := Plan(st, bookingId, created, paymentMethod);
      var seats := SeatCalls(st, bookingId, created, |created|);
      && |plan| >= 2 + |seats| && plan[2..2 + |seats|] == seats
      && forall p :: 0 <= p < |plan| && plan[p].SelectSeat? ==> 2 <= p < 2 + |seats|
  {
    hide SeatCalls, Extras, PaymentCall;
    OtherCalls(st, bookingId, paymentMethod);
    var seats, extras := SeatCalls(st, bookingId, created, |created|), Extras(st, bookingId);
    var front := [CreateDraft, AddPassengers(bookingId, st.passengerInfo)];
    assert Plan(st, bookingId, created, paymentMethod)
        == front + seats + (extras + [PaymentCall(bookingId, paymentMethod)]);
  }

  lemma OtherCalls(st: FlowState, bookingId: string, paymentMethod: string)
    ensures forall p :: 0 <= p < |Extras(st, bookingId)| ==> !Extras(st, bookingId)[p].SelectSeat?
    ensures !PaymentCall(bookingId, paymentMethod).SelectSeat?
  {
  }

  lemma SeatCallsGrow(st: FlowState, bookingId: string, created: seq<string>, n: nat)
    requires n <= |created|
    ensures if n == 0 then SeatCalls(st, bookingId, created, n) == []
            else |SeatCalls(st, bookingId, created, n)| <= |SeatCalls(st, bookingId, created, n - 1)| + 1
  {
    hide SeatOf;
  }

  /** Every prefix of the seat calls ends with some passenger. */
  lemma {:induction false} PassengersReached(st: FlowState, bookingId: string, created: seq<string>, n: nat,
                                             length: nat)
    returns (m: nat)
    requires n <= |created| && length <= |SeatCalls(st, bookingId, created, n)|
    ensures m <= n && |SeatCalls(st, bookingId, created, m)| == length
    ensures length == |SeatCalls(st, bookingId, created, n)| ==> m == n
  {
    hide SeatCalls;
    m := n;
    SeatCallsGrow(st, bookingId, created, n);
    if length < |SeatCalls(st, bookingId, created, n)| {
      m := PassengersReached(st, bookingId, created, n - 1, length);
    }
  }

  /** The seat calls that were sent. */
  function SeatsSent(calls: seq<Call>, seats: nat): seq<Call> {
    if |calls| <= 2 then [] else if |calls| <= 2 + seats then calls[2..] else calls[2..2 + seats]
  }

  /** What submission sends for seats is the list for the first m created passengers, for all of them if nothing
      fails; and it requests some seat twice exactly if two of those passengers share a key. */
  lemma NoSeatTwiceIff(st: FlowState, paymentMethod: string, calls: seq<Call>, replies: seq<Reply>,
                       error: Option<string>)
    returns (m: nat)
    requires InjectiveSeats(st) && Conversation(st, paymentMethod, calls, replies, error)
    ensures m <= |CreatedIds(replies)| && (error.None? ==> m == |CreatedIds(replies)|)
    ensures var seats := SeatCalls(st, DraftId(replies), CreatedIds(replies), |CreatedIds(replies)|);
      SeatsSent(calls, |seats|) == SeatCalls(st, DraftId(replies), CreatedIds(replies), m)
    ensures NoSeatTwice(calls) <==> !SharedKey(st, m)
  {
    hide SeatCalls, Plan, CreatedIds, DraftId, SharedKey, InjectiveSeats;
    var id, created := DraftId(replies), CreatedIds(replies);
    var seats := SeatCalls(st, id, created, |created|);
    PlanParts(st, id, created, paymentMethod);
    var sent := SeatsSent(calls, |seats|);
    m := PassengersReached(st, id, created, |created|, |sent|);
    SeatCallsPrefix(st, id, created, m, |created|);
    SentIsPrefix(calls, Plan(st, id, created, paymentMethod), seats);
    SeatCallsOnceIff(st, id, created, m);
  }

  /** All seat requests of a prefix of the plan are among the seat calls sent. */
  lemma SentIsPrefix(calls: seq<Call>, plan: seq<Call>, seats: seq<Call>)
    requires calls <= plan && |plan| >= 2 + |seats| && plan[2..2 + |seats|] == seats
    requires forall p :: 0 <= p < |plan| && plan[p].SelectSeat? ==> 2 <= p < 2 + |seats|
    ensures SeatsSent(calls, |seats|) <= seats
    ensures calls == plan ==> SeatsSent(calls, |seats|) == seats
    ensures NoSeatTwice(calls) <==> NoSeatTwice(SeatsSent(calls, |seats|))
  {
    var sent := SeatsSent(calls, |seats|);
    assert forall p :: 0 <= p < |sent| ==> sent[p] == calls[p + 2] == plan[p + 2] == plan[2..2 + |seats|][p];
    assert forall p :: 0 <= p < |calls| && calls[p].SelectSeat? ==> plan[p].SelectSeat? && calls[p] == sent[p - 2];
  }

  /** The created passengers have different front-end ids, none of which is the index of another passenger. */
  ghost predicate DistinctKeys(st: FlowState, n: nat) {
    && (forall i, j :: 0 <= i < j < n ==> FrontendId(st, i) != FrontendId(st, j))
    && (forall i, j :: 0 <= i < n && 0 <= j < n && i != j ==> FrontendId(st, i) != Decimal(j))
  }

  lemma DistinctKeysSuffice(st: FlowState, n: nat)
    requires DistinctKeys(st, n)
    ensures !SharedKey(st, n)
  {
    forall i: nat, j: nat | i < j < n ensures !SharesKey(st, i, j) {
      if Decimal(i) == Decimal(j) { DecimalInjective(i, j); }
      assert FrontendId(st, i) != Decimal(j) && FrontendId(st, j) != Decimal(i);
    }
  }

  lemma SharedKeyMonotone(st: FlowState, m: nat, n: nat)
    requires m <= n && SharedKey(st, m)
    ensures SharedKey(st, n)
  {
  }

  /** Under distinct keys and one passenger per seat, submission requests no seat twice, whatever fails. */
  lemma NoSeatRequestedTwice(st: FlowState, paymentMethod: string, calls: seq<Call>, replies: seq<Reply>,
                             error: Option<string>)
    requires DistinctKeys(st, |CreatedIds(replies)|) && InjectiveSeats(st)
    requires Conversation(st, paymentMethod, calls, replies, error)
    ensures NoSeatTwice(calls)
  {
    hide Conversation, DistinctKeys, InjectiveSeats, SharedKey;
    DistinctKeysSuffice(st, |CreatedIds(replies)|);
    var m := NoSeatTwiceIff(st, paymentMethod, calls, replies, error);
    if SharedKey(st, m) { SharedKeyMonotone(st, m, |CreatedIds(replies)|); }
  }

  // ----- What the forms write ---------------------------------------------------------------------

  /** The ids that the passenger form assigns. */
  ghost predicate FormIds(st: FlowState) {
    forall i :: 0 <= i < |st.passengerInfo| ==> st.passengerInfo[i].id == "pax-" + Decimal(i)
  }

  lemma FormIdsAreDistinct(st: FlowState, n: nat)
    requires FormIds(st) && n <= |st.passengerInfo|
    ensures DistinctKeys(st, n)
  {
    forall i, j | 0 <= i < n && 0 <= j < n && i != j
      ensures FrontendId(st, i) != FrontendId(st, j) && FrontendId(st, i) != Decimal(j)
    {
      PrefixedIds(i, j);
    }
  }

  lemma PrefixedIds(i: nat, j: nat)
    ensures "pax-" + Decimal(i) != Decimal(j)
    ensures i != j ==> "pax-" + Decimal(i) != "pax-" + Decimal(j)
  {
    hide Decimal;
    DecimalMeaning(j);
    assert ("pax-" + Decimal(i))[0] == 'p';
    assert ("pax-" + Decimal(i))[4..] == Decimal(i) && ("pax-" + Decimal(j))[4..] == Decimal(j);
    if Decimal(i) == Decimal(j) { DecimalInjective(i, j); }
  }

  /** With the ids of the form no two passengers share a key, even if the server creates more passengers than it
      was sent, as long as nothing is stored under "undefined". */
  lemma FormNeverCollides(st: FlowState, n: nat)
    requires FormIds(st) && Chosen(st, "undefined").None?
    ensures !SharedKey(st, n)
  {
    hide Decimal;
    forall i: nat, j: nat | i < j < n ensures !SharesKey(st, i, j) {
      PrefixedIds(i, j);
      PrefixedIds(j, i);
      if Decimal(i) == Decimal(j) { DecimalInjective(i, j); }
    }
  }

  /** Without such ids the fallback to the index can request one seat for two passengers: the first passenger's id
      is the index of the second, who has chosen nothing. */
  lemma IndexFallbackCollides() returns (st: FlowState, calls: seq<Call>, replies: seq<Reply>)
    ensures InjectiveSeats(st) && FrontendId(st, 0) != FrontendId(st, 1)
    ensures Conversation(st, "card", calls, replies, None) && !NoSeatTwice(calls)
    ensures calls == [CreateDraft, AddPassengers("b", st.passengerInfo),
                      SelectSeat("b", "p", "12A", 0), SelectSeat("b", "q", "12A", 0), InitiatePayment("b")]
  {
    hide SeatOf, InjectiveSeats, Plan;
    st := CollidingStore();
    calls := [CreateDraft, AddPassengers("b", st.passengerInfo),
              SelectSeat("b", "p", "12A", 0), SelectSeat("b", "q", "12A", 0), InitiatePayment("b")];
    var done := Ok("", []);
    replies := [Ok("b", []), Ok("", ["p", "q"]), done, done, done];
    CollidingPlan(st, "b", "p", "q", "12A");
    assert calls[2].seatId == calls[3].seatId;
  }

  lemma CollidingStore() returns (st: FlowState)
    ensures InjectiveSeats(st) && FrontendId(st, 0) != FrontendId(st, 1) && |st.selectedSeats| > 0
    ensures SeatOf(st, 0) == SeatOf(st, 1) == Some("12A") && |st.addons| == |st.baggage| == |st.meals| == 0
  {
    var passengers := [PassengerInfo("1", ""), PassengerInfo("x", "")];
    st := FlowState(map["1" := "12A"], map[], map[], [], passengers, None, false, None);
    assert Decimal(1) == ['1'] == "1";
  }

  /** The plan for two passengers who get one seat and nothing else. */
  lemma CollidingPlan(st: FlowState, bookingId: string, p: string, q: string, seat: string)
    requires |st.selectedSeats| > 0 && SeatOf(st, 0) == SeatOf(st, 1) == Some(seat)
    requires |st.addons| == |st.baggage| == |st.meals| == 0
    ensures Plan(st, bookingId, [p, q], "card")
         == [CreateDraft, AddPassengers(bookingId, st.passengerInfo), SelectSeat(bookingId, p, seat, 0),
             SelectSeat(bookingId, q, seat, 0), InitiatePayment(bookingId)]
  {
    hide SeatOf;
    assert SeatCalls(st, bookingId, [p, q], 1) == [SelectSeat(bookingId, p, seat, 0)];
    assert SeatCalls(st, bookingId, [p, q], 2)
        == [SelectSeat(bookingId, p, seat, 0), SelectSeat(bookingId, q, seat, 0)];
  }
}
