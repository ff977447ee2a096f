/** The in-memory greeting store (`InMemoryGreetingRepository`): the same
    save / find / delete pattern as the profile stores, over greetings. */
module GreetingStore {
  import opened Results
  import KeyedStore

  datatype Greeting = Greeting(id: string, message: string, language: string, created_at: Timestamp)

  type Store = map<string, Greeting>

  /** Every greeting is stored under its own id (what `save` always does). */
  ghost predicate WellKeyed(s: Store)
  {
    KeyedStore.KeyedBy(s, (g: Greeting) => g.id)
  }

  /** The store at start-up (`InMemoryGreetingRepository::new`): no greetings. */
  function Empty(): (r: Store)
    ensures WellKeyed(r)
    ensures forall id :: KeyedStore.Lookup(r, id) == None
  {
    map[]
  }

  /** `save`: stores the greeting under its id, overwriting any previous one; never fails. */
  function Save(s: Store, greeting: Greeting): (r: Update<Store>)
    ensures r.result == Pass
    ensures r.store.Keys == s.Keys + {greeting.id}
    ensures WellKeyed(s) ==> WellKeyed(r.store)
    ensures KeyedStore.Lookup(r.store, greeting.id) == Some(greeting)
    ensures forall k :: k != greeting.id ==> KeyedStore.Lookup(r.store, k) == KeyedStore.Lookup(s, k)
  {
    Update(KeyedStore.Insert(s, greeting.id, greeting), Pass)
  }

  /** `find_all`: exactly the stored greetings, one per key, in unspecified order. */
  method FindAll(s: Store) returns (r: seq<Greeting>)
    ensures |r| == |s|
    ensures forall i :: 0 <= i < |r| ==> r[i] in s.Values
    ensures forall k :: k in s ==> s[k] in r
    ensures WellKeyed(s) ==> forall i :: 0 <= i < |r| ==> r[i].id in s && s[r[i].id] == r[i]
    ensures WellKeyed(s) ==> forall i, j :: 0 <= i < j < |r| ==> r[i].id != r[j].id
  {
    r := KeyedStore.Values(s, (g: Greeting) => g.id);
  }

  /** `delete`: removes the id if present, otherwise changes nothing; never fails. */
  function Delete(s: Store, id: string): (r: Update<Store>)
    ensures r.result == Pass
    ensures KeyedStore.Lookup(r.store, id) == None
    ensures forall k :: k != id ==> KeyedStore.Lookup(r.store, k) == KeyedStore.Lookup(s, k)
    ensures id !in s ==> r.store == s
    ensures WellKeyed(s) ==> WellKeyed(r.store)
  {
    Update(KeyedStore.Remove(s, id), Pass)
  }

  /** A greeting can be found after it is saved, until it is deleted or overwritten. */
  lemma {:induction false} FindAfterSave(s: Store, g: Greeting, later: seq<string>)
    requires g.id !in later
    ensures KeyedStore.Lookup(DeleteAll(Save(s, g).store, later), g.id) == Some(g)
    decreases |later|
  {
    if |later| > 0 {
      FindAfterSave(s, g, later[..|later| - 1]);
    }
  }

  /** Deletes the ids in order. */
  function DeleteAll(s: Store, ids: seq<string>): (r: Store)
    decreases |ids|
  {
    if |ids| == 0 then s else Delete(DeleteAll(s, ids[..|ids| - 1]), ids[|ids| - 1]).store
  }

  /** A state-changing request to the store. */
  datatype Request = SaveGreeting(greeting: Greeting) | DeleteGreeting(id: string)

  /** The store after serving the requests one at a time (their results are always `Ok`). */
  function Replay(s: Store, requests: seq<Request>): Store
    decreases |requests|
  {
    if |requests| == 0 then s
    else
      var next := match requests[0]
        case SaveGreeting(g) => Save(s, g).store
        case DeleteGreeting(id) => Delete(s, id).store;
      Replay(next, requests[1..])
  }

  /** No request in the sequence saves a greeting under `id`. */
  predicate NeverSaves(requests: seq<Request>, id: string)
  {
    forall i :: 0 <= i < |requests| && requests[i].SaveGreeting? ==> requests[i].greeting.id != id
  }

  /** Serving requests keeps every greeting under its own id, and an id no request
      saves stays absent. */
  lemma {:induction false} ReplayKeepsAbsent(s: Store, requests: seq<Request>, id: string)
    requires WellKeyed(s) && id !in s
    requires NeverSaves(requests, id)
    ensures WellKeyed(Replay(s, requests))
    ensures KeyedStore.Lookup(Replay(s, requests), id) == None
    decreases |requests|
  {
    if |requests| > 0 {
      var next := match requests[0]
        case SaveGreeting(g) => Save(s, g).store
        case DeleteGreeting(d) => Delete(s, d).store;
      assert requests[0].SaveGreeting? ==> requests[0].greeting.id != id;
      assert id !in next;
      assert NeverSaves(requests[1..], id) by {
        forall i | 0 <= i < |requests[1..]| && requests[1..][i].SaveGreeting?
          ensures requests[1..][i].greeting.id != id
        {
          assert requests[1..][i] == requests[i + 1];
        }
      }
      ReplayKeepsAbsent(next, requests[1..], id);
    }
  }

  /** From start-up, `find_by_id` finds nothing for an id that was never saved, and
      every stored greeting sits under its own id. */
  lemma NeverSavedNotFound(requests: seq<Request>, id: string)
    requires NeverSaves(requests, id)
    ensures KeyedStore.Lookup(Replay(Empty(), requests), id) == None
    ensures WellKeyed(Replay(Empty(), requests))
  {
    ReplayKeepsAbsent(Empty(), requests, id);
  }
}
