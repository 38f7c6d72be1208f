/** The authorization guard and its read-through cache of role permissions. */
module PermissionCache {
  import opened Basics

  /** Time to live handed to the cache, in the cache's own time unit. */
  const TTL := 300

  function CacheKey(role: string): string {
    "role_permissions_" + role
  }

  /** One role's entry never serves another role. */
  lemma CacheKeyInjective(role: string, role': string)
    requires CacheKey(role) == CacheKey(role')
    ensures role == role'
  {
    var n := |"role_permissions_"|;
    assert CacheKey(role)[n..] == role && CacheKey(role')[n..] == role';
  }

  // ----- The world around a request ------------------------------------------------------

  /** The rows of the permission table from some instant on: pairs of role and permission code. */
  datatype Version = Version(since: int, rows: set<(string, string)>)

  /** A cached list, with the instants at which it was read from the table and written to the cache. */
  datatype Entry = Entry(permissions: seq<string>, readAt: int, writtenAt: int)

  /** The clock, all versions of the permission table so far (the last is current), and the cache. */
  datatype World = World(now: int, versions: seq<Version>, cache: map<string, Entry>)

  /** permissions lists exactly what the rows grant to the role. */
  ghost predicate IsListing(permissions: seq<string>, rows: set<(string, string)>, role: string) {
    forall code: string :: code in permissions <==> (role, code) in rows
  }

  /** Version i of the table was current at instant t. */
  predicate CurrentAt(versions: seq<Version>, i: nat, t: int) {
    i < |versions| && versions[i].since <= t && (i + 1 < |versions| ==> t <= versions[i + 1].since)
  }

  /** At instant t the table granted the role exactly these permissions. */
  ghost predicate Granted(versions: seq<Version>, role: string, permissions: seq<string>, t: int) {
    exists i: nat :: CurrentAt(versions, i, t) && IsListing(permissions, versions[i].rows, role)
  }

  ghost predicate EntryOk(w: World, role: string, e: Entry) {
    e.readAt <= e.writtenAt <= w.now && Granted(w.versions, role, e.permissions, e.readAt)
  }

  /** Versions are in order and every cached list was the truth for its role when it was read. */
  ghost predicate WorldOk(w: World) {
    && |w.versions| > 0 && w.versions[|w.versions| - 1].since <= w.now
    && (forall i, j :: 0 <= i < j < |w.versions| ==> w.versions[i].since <= w.versions[j].since)
    && forall key :: key in w.cache ==> exists role :: key == CacheKey(role) && EntryOk(w, role, w.cache[key])
  }

  /** w' is a later world: the clock does not go back and past versions stay; only new ones are added. */
  ghost predicate Later(w: World, w': World) {
    && w.now <= w'.now && w.versions <= w'.versions
    && (|w.versions| < |w'.versions| ==> |w.versions| > 0 ==> w.now <= w'.versions[|w.versions|].since)
  }

  /** What was granted at a past instant stays so in every later world. */
  lemma GrantedStays(w: World, w': World, role: string, permissions: seq<string>, t: int)
    requires Later(w, w') && t <= w.now && Granted(w.versions, role, permissions, t)
    ensures Granted(w'.versions, role, permissions, t)
  {
    var i: nat :| CurrentAt(w.versions, i, t) && IsListing(permissions, w.versions[i].rows, role);
    assert w'.versions[i] == w.versions[i];
    assert i + 1 < |w.versions| ==> w'.versions[i + 1] == w.versions[i + 1];
    assert CurrentAt(w'.versions, i, t);
  }

  lemma EntriesStay(w: World, w': World)
    requires WorldOk(w) && Later(w, w')
    requires |w'.versions| > 0 && w'.versions[|w'.versions| - 1].since <= w'.now
    requires forall i, j :: 0 <= i < j < |w'.versions| ==> w'.versions[i].since <= w'.versions[j].since
    requires forall key :: key in w'.cache ==> key in w.cache && w'.cache[key] == w.cache[key]
    ensures WorldOk(w')
  {
    forall key | key in w'.cache ensures exists role :: key == CacheKey(role) && EntryOk(w', role, w'.cache[key]) {
      var role :| key == CacheKey(role) && EntryOk(w, role, w.cache[key]);
      GrantedStays(w, w', role, w.cache[key].permissions, w.cache[key].readAt);
      assert EntryOk(w', role, w'.cache[key]);
    }
  }

  // ----- Atomic actions of a request -------------------------------------------------------

  /** A cache hit: present and not expired. An empty list is a hit too. */
  predicate Hit(w: World, role: string) {
    CacheKey(role) in w.cache && w.now <= w.cache[CacheKey(role)].writtenAt + TTL
  }

  function Store(w: World, role: string, permissions: seq<string>, readAt: int): World {
    w.(cache := w.cache[CacheKey(role) := Entry(permissions, readAt, w.now)])
  }

  /** A decision is as fresh as promised: its list was exact at readAt, and its age is at most the time to live
      plus the delay between reading the table and writing the cache in the request that filled the entry. */
  ghost predicate FreshEnough(w: World, role: string, permissions: seq<string>, readAt: int, writtenAt: int) {
    && Granted(w.versions, role, permissions, readAt)
    && readAt <= writtenAt <= w.now
    && w.now - readAt <= TTL + (writtenAt - readAt)
  }

  lemma HitIsFresh(w: World, role: string)
    requires WorldOk(w) && Hit(w, role)
    ensures var e := w.cache[CacheKey(role)]; FreshEnough(w, role, e.permissions, e.readAt, e.writtenAt)
  {
    var key := CacheKey(role);
    var owner :| key == CacheKey(owner) && EntryOk(w, owner, w.cache[key]);
    CacheKeyInjective(role, owner);
  }

  lemma StoreIsOk(w: World, role: string, permissions: seq<string>, readAt: int)
    requires WorldOk(w) && readAt <= w.now && Granted(w.versions, role, permissions, readAt)
    ensures WorldOk(Store(w, role, permissions, readAt))
    ensures FreshEnough(Store(w, role, permissions, readAt), role, permissions, readAt, w.now)
  {
    hide CacheKey;
    var w' := Store(w, role, permissions, readAt);
    forall key | key in w'.cache ensures exists owner :: key == CacheKey(owner) && EntryOk(w', owner, w'.cache[key]) {
      if key == CacheKey(role) {
        assert EntryOk(w', role, w'.cache[key]);
      } else {
        var owner :| key == CacheKey(owner) && EntryOk(w, owner, w.cache[key]);
        assert EntryOk(w', owner, w'.cache[key]);
      }
    }
  }

  // ----- All requests together ----------------------------------------------------------------

  datatype Request = Asking(role: string) | Missed(role: string) | Fetched(role: string, permissions: seq<string>,
                                                                           readAt: int) | Answered
  datatype Decision = Decision(role: string, permissions: seq<string>, at: int, readAt: int, writtenAt: int)
  datatype State = State(w: World, requests: seq<Request>, decisions: seq<Decision>)

  ghost predicate TickStep(s: State, s': State) {
    s'.w.now >= s.w.now && s' == s.(w := s.w.(now := s'.w.now))
  }

  ghost predicate ChangeStep(s: State, s': State, rows: set<(string, string)>) {
    s' == s.(w := s.w.(versions := s.w.versions + [Version(s.w.now, rows)]))
  }

  ghost predicate EvictStep(s: State, s': State, key: string) {
    s' == s.(w := s.w.(cache := s.w.cache - {key}))
  }

  ghost predicate AskStep(s: State, s': State, role: string) {
    s' == s.(requests := s.requests + [Asking(role)])
  }

  ghost predicate LookupStep(s: State, s': State, r: nat) {
    && r < |s.requests| && s.requests[r].Asking?
    && var role := s.requests[r].role;
       if Hit(s.w, role) then
         var e := s.w.cache[CacheKey(role)];
         s' == s.(requests := s.requests[r := Answered],
                  decisions := s.decisions + [Decision(role, e.permissions, s.w.now, e.readAt, e.writtenAt)])
       else s' == s.(requests := s.requests[r := Missed(role)])
  }

  ghost predicate FetchStep(s: State, s': State, r: nat, permissions: seq<string>) {
    && r < |s.requests| && s.requests[r].Missed? && |s.w.versions| > 0
    && IsListing(permissions, s.w.versions[|s.w.versions| - 1].rows, s.requests[r].role)
    && s' == s.(requests := s.requests[r := Fetched(s.requests[r].role, permissions, s.w.now)])
  }

  ghost predicate StoreStep(s: State, s': State, r: nat) {
    && r < |s.requests| && s.requests[r].Fetched?
    && var q := s.requests[r];
       s' == s.(w := Store(s.w, q.role, q.permissions, q.readAt), requests := s.requests[r := Answered],
                decisions := s.decisions + [Decision(q.role, q.permissions, s.w.now, q.readAt, s.w.now)])
  }

  ghost predicate Step(s: State, s': State) {
    || TickStep(s, s')
    || (exists rows :: ChangeStep(s, s', rows))
    || (exists key :: EvictStep(s, s', key))
    || (exists role :: AskStep(s, s', role))
    || (exists r: nat :: LookupStep(s, s', r))
    || (exists r: nat, permissions :: FetchStep(s, s', r, permissions))
    || (exists r: nat :: StoreStep(s, s', r))
  }

  ghost predicate RequestOk(w: World, q: Request) {
    q.Fetched? ==> q.readAt <= w.now && Granted(w.versions, q.role, q.permissions, q.readAt)
  }

  /** The staleness bound of one recorded decision. */
  ghost predicate DecisionOk(w: World, d: Decision) {
    && d.at <= w.now && Granted(w.versions, d.role, d.permissions, d.readAt)
    && d.readAt <= d.writtenAt <= d.at && d.at - d.readAt <= TTL + (d.writtenAt - d.readAt)
  }

  ghost predicate Invariant(s: State) {
    && WorldOk(s.w)
    && (forall q :: q in s.requests ==> RequestOk(s.w, q))
    && (forall d :: d in s.decisions ==> DecisionOk(s.w, d))
  }

  /** Requests and decisions recorded earlier remain right in a later world. */
  lemma RecordsStay(s: State, w': World)
    requires Invariant(s) && Later(s.w, w')
    ensures forall q :: q in s.requests ==> RequestOk(w', q)
    ensures forall d :: d in s.decisions ==> DecisionOk(w', d)
  {
    forall q | q in s.requests ensures RequestOk(w', q) {
      if q.Fetched? { GrantedStays(s.w, w', q.role, q.permissions, q.readAt); }
    }
    forall d | d in s.decisions ensures DecisionOk(w', d) {
      GrantedStays(s.w, w', d.role, d.permissions, d.readAt);
    }
  }

  lemma WorldStepKeeps(s: State, s': State)
    requires Invariant(s)
    requires TickStep(s, s') || (exists rows :: ChangeStep(s, s', rows)) || (exists key :: EvictStep(s, s', key))
    ensures Invariant(s')
  {
    hide WorldOk, TickStep, ChangeStep, EvictStep, RequestOk, DecisionOk, Later;
    WorldMoves(s, s');
    RecordsStay(s, s'.w);
    EntriesStay(s.w, s'.w);
  }

  lemma WorldMoves(s: State, s': State)
    requires WorldOk(s.w)
    requires TickStep(s, s') || (exists rows :: ChangeStep(s, s', rows)) || (exists key :: EvictStep(s, s', key))
    ensures s'.requests == s.requests && s'.decisions == s.decisions && Later(s.w, s'.w)
    ensures |s'.w.versions| > 0 && s'.w.versions[|s'.w.versions| - 1].since <= s'.w.now
    ensures forall i, j :: 0 <= i < j < |s'.w.versions| ==> s'.w.versions[i].since <= s'.w.versions[j].since
    ensures forall key :: key in s'.w.cache ==> key in s.w.cache && s'.w.cache[key] == s.w.cache[key]
  {
    hide Granted, CacheKey, EntryOk;
  }

  lemma RequestStepKeeps(s: State, s': State, r: nat)
    requires Invariant(s)
    requires LookupStep(s, s', r) || (exists permissions :: FetchStep(s, s', r, permissions)) || StoreStep(s, s', r)
    ensures Invariant(s')
  {
    hide CacheKey, Hit;
    var role := s.requests[r].role;
    assert s.requests[r] in s.requests;
    if permissions :| FetchStep(s, s', r, permissions) {
      assert CurrentAt(s.w.versions, |s.w.versions| - 1, s.w.now);
    } else if LookupStep(s, s', r) {
      if Hit(s.w, role) { HitIsFresh(s.w, role); }
    } else {
      var q := s.requests[r];
      StoreIsOk(s.w, q.role, q.permissions, q.readAt);
      RecordsStay(s, s'.w);
    }
  }

  /** Bounded staleness over every interleaving: from any state with a sound world, after any number of steps by any
      number of requests, table changes, evictions and clock ticks, every decision was exact at an instant no older
      than the time to live plus the filling request's read-to-write delay. */
  lemma {:induction false} BoundedStaleness(run: seq<State>, i: nat)
    requires i < |run| && Invariant(run[0])
    requires forall k :: 0 <= k < |run| - 1 ==> Step(run[k], run[k + 1])
    ensures Invariant(run[i])
  {
    if i > 0 {
      BoundedStaleness(run, i - 1);
      var s, s' := run[i - 1], run[i];
      assert Step(s, s');
      if r: nat :| LookupStep(s, s', r) {
        RequestStepKeeps(s, s', r);
      } else if r: nat, permissions :| FetchStep(s, s', r, permissions) {
        RequestStepKeeps(s, s', r);
      } else if r: nat :| StoreStep(s, s', r) {
        RequestStepKeeps(s, s', r);
      } else if role :| AskStep(s, s', role) {
      } else {
        WorldStepKeeps(s, s');
      }
    }
  }

  // ----- The guard's own code -------------------------------------------------------------------

  datatype Verdict = Allowed | AuthenticationRequired | WrongRole | MissingPermissions(missing: seq<string>)

  /** The required codes that the list lacks, in order. */
  function Lacking(required: seq<string>, permissions: seq<string>): seq<string> {
    if required == [] then []
    else (if required[0] in permissions then [] else [required[0]]) + Lacking(required[1..], permissions)
  }

  lemma {:induction false} LackingContents(required: seq<string>, permissions: seq<string>)
    ensures forall code :: code in Lacking(required, permissions) <==> code in required && code !in permissions
  {
    if required != [] { LackingContents(required[1..], permissions); }
  }

  /** What the role's permissions are taken from, for worlds as others leave them at the lookup, at the read of the
      table, and at the write to the cache. While an entry is live, that is, at most 300 time units after it was
      written, it is the answer and nothing changes. Otherwise the answer is read from the table after the lookup, and
      afterwards the role's key holds it with the instants of its read and its write; nothing else changes. */
  ghost predicate Served(lookup: World, query: World, store: World, role: string,
                         permissions: seq<string>, readAt: int, writtenAt: int, after: World)
    requires |query.versions| > 0
  {
    var key := "role_permissions_" + role;
    if key in lookup.cache && lookup.now - lookup.cache[key].writtenAt <= 300 then
      && permissions == lookup.cache[key].permissions && readAt == lookup.cache[key].readAt
      && writtenAt == lookup.cache[key].writtenAt && after == lookup
    else
      && (forall code: string :: code in permissions <==> (role, code) in query.versions[|query.versions| - 1].rows)
      && readAt == query.now && writtenAt == store.now
      && after.now == store.now && after.versions == store.versions
      && after.cache == store.cache[key := Entry(permissions, readAt, writtenAt)]
  }

  /** Worlds one after the other, each sound. */
  ghost predicate Succession(first: World, lookup: World, query: World, store: World) {
    && WorldOk(first) && WorldOk(lookup) && WorldOk(query) && WorldOk(store)
    && Later(first, lookup) && Later(lookup, query) && Later(query, store)
  }

  class AuthorizationGuard {
    var world: World

    /** While this request awaits a reply, others may take any number of steps. */
    method Await(later: World)
      modifies this
      ensures world == later
    {
      world := later;
    }

    /** The current table rows of a role. */
    method QueryTable(role: string) returns (permissions: seq<string>)
      requires |world.versions| > 0
      ensures IsListing(permissions, world.versions[|world.versions| - 1].rows, role)
    {
      permissions := ListRows(world.versions[|world.versions| - 1].rows, role);
    }

    /** Read-through: a cached list if there is one, else the table's, which is then cached. The instants say, for the
        specification, when the list was read from the table and when it was written to the cache. */
    method GetUserPermissions(role: string, lookup: World, query: World, store: World)
      returns (permissions: seq<string>, readAt: int, writtenAt: int)
      requires Succession(world, lookup, query, store)
      modifies this
      ensures WorldOk(world) && FreshEnough(world, role, permissions, readAt, writtenAt)
      ensures Served(lookup, query, store, role, permissions, readAt, writtenAt, world)
    {
      hide CurrentAt, Granted, EntryOk;
      Await(lookup);
      if Hit(world, role) {
        HitIsFresh(world, role);
        var e := world.cache[CacheKey(role)];
        return e.permissions, e.readAt, e.writtenAt;
      }
      Await(query);
      permissions := QueryTable(role);
      readAt := world.now;
      ListedNow(query, role, permissions);
      Await(store);
      GrantedStays(query, store, role, permissions, readAt);
      StoreIsOk(world, role, permissions, readAt);
      writtenAt := world.now;
      world := Store(world, role, permissions, readAt);
    }

    /** The decision. None stands for a decorator that is absent, which is not the same as an empty list. The cache is
        only used if there are permissions to check, and then as above. */
    method CanActivate(roles: Option<seq<string>>, required: Option<seq<string>>, user: Option<string>,
                       lookup: World, query: World, store: World)
      returns (verdict: Verdict, permissions: seq<string>, readAt: int, writtenAt: int)
      requires Succession(world, lookup, query, store)
      modifies this
      ensures WorldOk(world)
      ensures verdict == AuthenticationRequired <==> (roles.Some? || required.Some?) && user.None?
      ensures verdict == WrongRole <==> user.Some? && roles.Some? && roles.value != [] && user.value !in roles.value
      ensures (verdict == Allowed || verdict.MissingPermissions?) && required.Some? && required.value != [] ==>
        && user.Some? && FreshEnough(world, user.value, permissions, readAt, writtenAt)
        && Served(lookup, query, store, user.value, permissions, readAt, writtenAt, world)
        && (verdict == Allowed <==> forall code :: code in required.value ==> code in permissions)
      ensures !((verdict == Allowed || verdict.MissingPermissions?) && required.Some? && required.value != []) ==>
        world == old(world)
      ensures verdict.MissingPermissions? ==>
        && required.Some? && verdict.missing != []
        && forall code :: code in verdict.missing <==> code in required.value && code !in permissions
    {
      hide CacheKey, IsListing, CurrentAt, Granted, Served, FreshEnough;
      permissions, readAt, writtenAt := [], 0, 0;
      if roles.None? && required.None? {
        return Allowed, permissions, readAt, writtenAt;
      }
      if user.None? {
        return AuthenticationRequired, permissions, readAt, writtenAt;
      }
      if roles.Some? && |roles.value| > 0 && user.value !in roles.value {
        return WrongRole, permissions, readAt, writtenAt;
      }
      if required.Some? && |required.value| > 0 {
        var list;
        list, readAt, writtenAt := GetUserPermissions(user.value, lookup, query, store);
        permissions := list;
        LackingContents(required.value, list);
        var missing := Lacking(required.value, list);
        if missing != [] {
          assert missing[0] in missing;
          return MissingPermissions(missing), permissions, readAt, writtenAt;
        }
      }
      return Allowed, permissions, readAt, writtenAt;
    }
  }

  lemma ListedNow(w: World, role: string, permissions: seq<string>)
    requires WorldOk(w) && IsListing(permissions, w.versions[|w.versions| - 1].rows, role)
    ensures Granted(w.versions, role, permissions, w.now)
  {
    assert CurrentAt(w.versions, |w.versions| - 1, w.now);
  }

  /** A served list is never older than 300 time units since its real write, plus the delay between its read and that
      write: on a live entry the write is the entry's, otherwise the list is new. */
  lemma ServedIsYoung(first: World, lookup: World, query: World, store: World, role: string,
                      permissions: seq<string>, readAt: int, writtenAt: int, after: World)
    requires Succession(first, lookup, query, store)
    requires Served(lookup, query, store, role, permissions, readAt, writtenAt, after)
    ensures after.now - writtenAt <= 300 && readAt <= writtenAt <= after.now
    ensures Granted(after.versions, role, permissions, readAt)
  {
    hide Granted, CurrentAt;
    if Hit(lookup, role) {
      HitIsFresh(lookup, role);
    } else {
      ListedNow(query, role, permissions);
      GrantedStays(query, store, role, permissions, readAt);
    }
  }

  /** The method's behaviour is that of the step system: a request that asks in world `lookup` makes its decision by a
      lookup step there, or misses, fetches in world `query` and stores in world `store`. */
  lemma ServedBySteps(lookup: World, query: World, store: World, role: string, permissions: seq<string>,
                      readAt: int, writtenAt: int, after: World)
    returns (asked: seq<State>, fetched: seq<State>, answered: seq<State>)
    requires |query.versions| > 0 && Served(lookup, query, store, role, permissions, readAt, writtenAt, after)
    ensures |asked| == 2 && Step(asked[0], asked[1]) && asked[0] == State(lookup, [Asking(role)], [])
    ensures var decision := Decision(role, permissions, after.now, readAt, writtenAt);
      if Hit(lookup, role) then asked[1] == State(after, [Answered], [decision])
      else
        && |fetched| == 2 && Step(fetched[0], fetched[1]) && fetched[0] == asked[1].(w := query)
        && |answered| == 2 && Step(answered[0], answered[1]) && answered[0] == fetched[1].(w := store)
        && answered[1] == State(after, [Answered], [decision])
  {
    var s := State(lookup, [Asking(role)], []);
    fetched, answered := [], [];
    if Hit(lookup, role) {
      asked := [s, State(after, [Answered], [Decision(role, permissions, after.now, readAt, writtenAt)])];
      assert LookupStep(asked[0], asked[1], 0);
    } else {
      asked := [s, State(lookup, [Missed(role)], [])];
      assert LookupStep(asked[0], asked[1], 0);
      fetched := [State(query, [Missed(role)], []), State(query, [Fetched(role, permissions, readAt)], [])];
      assert FetchStep(fetched[0], fetched[1], 0, permissions);
      answered := [State(store, [Fetched(role, permissions, readAt)], []),
                   State(after, [Answered], [Decision(role, permissions, after.now, readAt, writtenAt)])];
      assert StoreStep(answered[0], answered[1], 0);
    }
  }

  /** The permission codes of a role's rows. */
  method ListRows(rows: set<(string, string)>, role: string) returns (permissions: seq<string>)
    ensures IsListing(permissions, rows, role)
  {
    permissions := [];
    var codes := set row | row in rows && row.0 == role :: row.1;
    assert forall code: string :: code in codes <==> (role, code) in rows;
    while codes != {}
      invariant forall code: string :: (code in permissions || code in codes) <==> (role, code) in rows
    {
      NotEmpty(codes);
      var code :| code in codes;
      permissions, codes := permissions + [code], codes - {code};
    }
  }

  lemma NotEmpty(codes: set<string>)
    requires codes != {}
    ensures exists code :: code in codes
  {
    if forall code :: code !in codes { Extensional(codes); }
  }

  lemma Extensional(codes: set<string>)
    ensures (forall code :: code !in codes) ==> codes == {}
  {
  }
}
