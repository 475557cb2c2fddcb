/**
 * The job client: a namespace-bound façade that creates, deletes, lists and
 * fetches batch jobs, and deletes every job it owns one request at a time.
 * The server's answer to a list request is an input, the cluster's job store
 * is passed in and returned, and a fatal API error becomes an error result.
 */
module JobClient {
  import opened Wrappers
  import opened Tokens
  import opened Labels
  import opened Jobs
  import opened Cluster

  /** The server's answer to a list request: the listed jobs in its order, or an error. */
  type Listing = Result<seq<Job>, ApiError>

  /** The items the client walks: a failed list request is taken for an empty list. */
  function Listed(listing: Listing): seq<Job>
  {
    if listing.Ok? then listing.value else []
  }

  /** The server honoured `selector`: every listed job is selected by it. */
  predicate Answers(listing: Listing, selector: string)
  {
    listing.Ok? ==> forall i :: 0 <= i < |listing.value| ==> Matches(selector, listing.value[i].metadata.labels)
  }

  /** Every listed job is the one `store` holds under its name in `namespace`. */
  ghost predicate SnapshotOf(listing: Listing, store: Store, namespace: string)
  {
    listing.Ok? ==>
      forall i :: 0 <= i < |listing.value| ==>
        var key := ObjectKey(namespace, listing.value[i].metadata.name);
        key in store && store[key] == listing.value[i]
  }

  /** The keys the client deletes for the listed items: their names in its namespace. */
  function KeysIn(namespace: string, items: seq<Job>): seq<ObjectKey>
  {
    seq(|items|, i requires 0 <= i < |items| => ObjectKey(namespace, items[i].metadata.name))
  }

  function Elems(keys: seq<ObjectKey>): set<ObjectKey>
  {
    set k | k in keys
  }

  /** Where a run of deletions ends: the store, how many deletions succeeded, and the error that stopped it. */
  datatype Sweep = Sweep(store: Store, removed: nat, failure: Option<ApiError>)

  function Shift(r: Sweep, n: nat): Sweep
  {
    r.(removed := r.removed + n)
  }

  /** Deletes `keys` in order, stopping at the first request that fails. */
  function DeleteEach(store: Store, rejects: set<ObjectKey>, keys: seq<ObjectKey>): Sweep
    decreases |keys|
  {
    if keys == [] then Sweep(store, 0, None)
    else
      match DeleteJob(store, rejects, keys[0])
      case Err(e) => Sweep(store, 0, Some(e))
      case Ok(next) => Shift(DeleteEach(next, rejects, keys[1..]), 1)
  }

  /**
   * A run of deletions removes exactly a prefix of the keys, each of which was
   * stored, not refused and not repeated, so every deletion in it went
   * through; it stops early only on an error, and that error is the answer to
   * the first key it did not remove.
   */
  lemma {:induction false} DeleteEachEffect(store: Store, rejects: set<ObjectKey>, keys: seq<ObjectKey>)
    ensures var r := DeleteEach(store, rejects, keys);
      && r.removed <= |keys|
      && (r.failure.None? <==> r.removed == |keys|)
      && Elems(keys[..r.removed]) <= store.Keys
      && (forall i :: 0 <= i < r.removed ==> keys[i] !in rejects)
      && Distinct(keys[..r.removed])
      && r.store == store - Elems(keys[..r.removed])
      && (r.failure.Some? ==> DeleteJob(r.store, rejects, keys[r.removed]) == Err(r.failure.value))
    decreases |keys|
  {
    if keys != [] {
      match DeleteJob(store, rejects, keys[0])
      case Err(e) =>
        assert keys[..0] == [];
      case Ok(next) =>
        var tail := keys[1..];
        DeleteEachEffect(next, rejects, tail);
        var r := DeleteEach(next, rejects, tail);
        assert keys[..r.removed + 1] == [keys[0]] + tail[..r.removed];
        assert Elems(keys[..r.removed + 1]) == {keys[0]} + Elems(tail[..r.removed]);
        if r.failure.Some? {
          assert keys[r.removed + 1] == tail[r.removed];
        }
        forall i | 0 <= i < r.removed + 1 ensures keys[i] !in rejects {
          if i > 0 { assert keys[i] == tail[i - 1]; }
        }
        var prefix := keys[..r.removed + 1];
        forall i, j | 0 <= i < j < |prefix| ensures prefix[i] != prefix[j] {
          assert prefix[j] == tail[..r.removed][j - 1];
          if i == 0 {
            assert tail[..r.removed][j - 1] in Elems(tail[..r.removed]);
          } else {
            assert prefix[i] == tail[..r.removed][i - 1];
          }
        }
    }
  }

  /** A sequence without repetitions. */
  predicate Distinct(keys: seq<ObjectKey>)
  {
    forall i, j :: 0 <= i < j < |keys| ==> keys[i] != keys[j]
  }

  /** A run of deletions completes exactly when every key is stored, none is refused, and none repeats. */
  lemma {:induction false} DeleteEachSucceedsIff(store: Store, rejects: set<ObjectKey>, keys: seq<ObjectKey>)
    ensures DeleteEach(store, rejects, keys).failure.None? <==>
      (forall i :: 0 <= i < |keys| ==> keys[i] in store && keys[i] !in rejects) && Distinct(keys)
    decreases |keys|
  {
    if keys != [] {
      var tail := keys[1..];
      match DeleteJob(store, rejects, keys[0])
      case Err(e) =>
        assert !(keys[0] in store && keys[0] !in rejects);
      case Ok(next) =>
        DeleteEachSucceedsIff(next, rejects, tail);
        var allGood := (forall i :: 0 <= i < |keys| ==> keys[i] in store && keys[i] !in rejects) && Distinct(keys);
        var tailGood := (forall i :: 0 <= i < |tail| ==> tail[i] in next && tail[i] !in rejects) && Distinct(tail);
        if allGood {
          forall i | 0 <= i < |tail| ensures tail[i] in next && tail[i] !in rejects {
            assert tail[i] == keys[i + 1] && keys[0] != keys[i + 1];
          }
          forall i, j | 0 <= i < j < |tail| ensures tail[i] != tail[j] {
            assert tail[i] == keys[i + 1] && tail[j] == keys[j + 1];
          }
        }
        if tailGood {
          forall i | 0 <= i < |keys| ensures keys[i] in store && keys[i] !in rejects {
            if i > 0 { assert keys[i] == tail[i - 1]; }
          }
          forall i, j | 0 <= i < j < |keys| ensures keys[i] != keys[j] {
            if i == 0 {
              assert keys[j] == tail[j - 1] && tail[j - 1] in next;
            } else {
              assert keys[i] == tail[i - 1] && keys[j] == tail[j - 1];
            }
          }
        }
    }
  }

  /** What Create returns: the created job's name, and the store that now holds it. */
  datatype Created = Created(name: string, store: Store)

  /** A job client bound to one namespace. */
  datatype Client = Client(namespace: string) {

    /** Submits the descriptor BuildJob gives for these arguments and returns the created job's name. */
    function Create(store: Store, rejects: set<ObjectKey>, name: string, image: string, cmd: string): (r: Result<Created, ApiError>)
      ensures r.Ok? <==> ObjectKey(namespace, name) !in store && ObjectKey(namespace, name) !in rejects
      ensures r.Ok? ==> r.value.name == name
      ensures r.Ok? ==>
        var key := ObjectKey(namespace, name);
        && key in r.value.store && r.value.store[key] == BuildJob(namespace, name, image, cmd)
        && SameExcept(r.value.store, store, key)
      ensures r.Err? ==> r.error.key == ObjectKey(namespace, name)
    {
      var jobSpec := BuildJob(namespace, name, image, cmd);
      match CreateJob(store, rejects, jobSpec)
      case Ok(next) => Ok(Created(next[KeyOf(jobSpec)].metadata.name, next))
      case Err(e) => Err(e)
    }

    /** Deletes the job `name` of the client's namespace and nothing else. */
    function Delete(store: Store, rejects: set<ObjectKey>, name: string): (r: Result<Store, ApiError>)
      ensures r.Ok? <==> ObjectKey(namespace, name) in store && ObjectKey(namespace, name) !in rejects
      ensures r.Ok? ==> ObjectKey(namespace, name) !in r.value && SameExcept(r.value, store, ObjectKey(namespace, name))
      ensures r.Err? ==> r.error.key == ObjectKey(namespace, name)
    {
      DeleteJob(store, rejects, ObjectKey(namespace, name))
    }

    /**
     * Walks the listed jobs in order, deleting each by name, and stops at the
     * first deletion that fails. A failed list request deletes nothing.
     */
    method DeleteAll(store: Store, rejects: set<ObjectKey>, listing: Listing) returns (outcome: Outcome<ApiError>, after: Store)
      ensures var r := DeleteEach(store, rejects, KeysIn(namespace, Listed(listing)));
        && after == r.store
        && (outcome.Pass? <==> r.failure.None?)
        && (outcome.Fail? ==> r.failure == Some(outcome.error))
    {
      var allTheJobs := Listed(listing);
      ghost var keys := KeysIn(namespace, allTheJobs);
      after := store;
      var i := 0;
      while i < |allTheJobs|
        invariant 0 <= i <= |allTheJobs|
        invariant Shift(DeleteEach(after, rejects, keys[i..]), i) == DeleteEach(store, rejects, keys)
      {
        assert keys[i..][0] == ObjectKey(namespace, allTheJobs[i].metadata.name);
        assert keys[i..][1..] == keys[i + 1..];
        match DeleteJob(after, rejects, ObjectKey(namespace, allTheJobs[i].metadata.name))
        case Err(e) =>
          outcome := Fail(e);
          return;
        case Ok(next) => {
          after := next;
          i := i + 1;
        }
      }
      assert keys[i..] == [];
      outcome := Pass;
    }

    /** The names of the listed jobs, in the order listed; a failed list request gives none. */
    method List(listing: Listing) returns (jobList: seq<string>)
      ensures |jobList| == |Listed(listing)|
      ensures forall i :: 0 <= i < |jobList| ==> jobList[i] == Listed(listing)[i].metadata.name
      ensures listing.Err? ==> jobList == []
    {
      var allTheJobs := Listed(listing);
      jobList := [];
      for i := 0 to |allTheJobs|
        invariant |jobList| == i
        invariant forall j :: 0 <= j < i ==> jobList[j] == allTheJobs[j].metadata.name
      {
        jobList := jobList + [allTheJobs[i].metadata.name];
      }
    }

    /** The stored job `name`, or the zero descriptor when fetching it fails for any reason. */
    function Get(store: Store, rejects: set<ObjectKey>, name: string): (j: Job)
      ensures var key := ObjectKey(namespace, name);
        if key in store && key !in rejects then j == store[key] else j == ZeroJob
    {
      match GetJob(store, rejects, ObjectKey(namespace, name))
      case Ok(job) => job
      case Err(_) => ZeroJob
    }
  }

  /** Every job the owner selector lists carries the label Create attaches. */
  lemma ListedJobsAreOwned(listing: Listing)
    requires Answers(listing, OwnerSelector)
    ensures forall i :: 0 <= i < |Listed(listing)| ==>
      OwnerKey in Listed(listing)[i].metadata.labels && Listed(listing)[i].metadata.labels[OwnerKey] == OwnerValue
  {
    forall i | 0 <= i < |Listed(listing)|
      ensures OwnerKey in Listed(listing)[i].metadata.labels && Listed(listing)[i].metadata.labels[OwnerKey] == OwnerValue
    {
      OwnerSelectorMatches(Listed(listing)[i].metadata.labels);
    }
  }

  /**
   * Deleting everything listed under the owner selector leaves alone every job
   * of another namespace and every job without the ownership label.
   */
  lemma DeleteAllSparesForeignJobs(c: Client, store: Store, rejects: set<ObjectKey>, listing: Listing)
    requires Answers(listing, OwnerSelector)
    requires SnapshotOf(listing, store, c.namespace)
    ensures var r := DeleteEach(store, rejects, KeysIn(c.namespace, Listed(listing)));
      forall k :: k in store && (k.namespace != c.namespace || !Matches(OwnerSelector, store[k].metadata.labels)) ==>
        k in r.store && r.store[k] == store[k]
  {
    var items := Listed(listing);
    var keys := KeysIn(c.namespace, items);
    DeleteEachEffect(store, rejects, keys);
    var r := DeleteEach(store, rejects, keys);
    forall k | k in store && (k.namespace != c.namespace || !Matches(OwnerSelector, store[k].metadata.labels))
      ensures k in r.store && r.store[k] == store[k]
    {
      assert k !in Elems(keys[..r.removed]);
    }
  }

  /** On a store that keeps every job under its own key, Get yields the job it was asked for or the zero descriptor. */
  lemma GetReturnsRequestedJob(c: Client, store: Store, rejects: set<ObjectKey>, name: string)
    requires WellKeyed(store)
    ensures var j := c.Get(store, rejects, name);
      j == ZeroJob || (j.metadata.name == name && j.metadata.namespace == c.namespace)
  {
  }

  /** Create and Delete keep every job stored under its own namespace and name. */
  lemma ClientKeepsWellKeyed(c: Client, store: Store, rejects: set<ObjectKey>, name: string, image: string, cmd: string)
    requires WellKeyed(store)
    ensures c.Create(store, rejects, name, image, cmd).Ok? ==> WellKeyed(c.Create(store, rejects, name, image, cmd).value.store)
    ensures c.Delete(store, rejects, name).Ok? ==> WellKeyed(c.Delete(store, rejects, name).value)
  {
    RequestsKeepWellKeyed(store, rejects, BuildJob(c.namespace, name, image, cmd), ObjectKey(c.namespace, name));
  }

  /**
   * The job Create stored is what Get returns for its name, provided the get
   * request, refused or not independently of the create request, is not refused.
   */
  lemma CreateThenGet(c: Client, store: Store, createRejects: set<ObjectKey>, getRejects: set<ObjectKey>,
                      name: string, image: string, cmd: string)
    requires c.Create(store, createRejects, name, image, cmd).Ok?
    requires ObjectKey(c.namespace, name) !in getRejects
    ensures var j := c.Get(c.Create(store, createRejects, name, image, cmd).value.store, getRejects, name);
      && j == BuildJob(c.namespace, name, image, cmd)
      && j != ZeroJob
  {
    ZeroJobIsNotOwned();
  }

  /**
   * Deleting the job just created gives back the store as it was, provided the
   * delete request, refused or not independently of the create request, is not refused.
   */
  lemma CreateThenDelete(c: Client, store: Store, createRejects: set<ObjectKey>, deleteRejects: set<ObjectKey>,
                         name: string, image: string, cmd: string)
    requires c.Create(store, createRejects, name, image, cmd).Ok?
    requires ObjectKey(c.namespace, name) !in deleteRejects
    ensures c.Delete(c.Create(store, createRejects, name, image, cmd).value.store, deleteRejects, name) == Ok(store)
  {
    var created := c.Create(store, createRejects, name, image, cmd).value.store;
    var key := ObjectKey(c.namespace, name);
    assert key in created && key !in store;
    RemoveRestores(created, store, key);
  }

  /** `Create("a", "busybox", "echo hello")` followed by `Get("a")` shows one busybox container running echo with one argument. */
  lemma CreateGetExample(c: Client, store: Store, createRejects: set<ObjectKey>, getRejects: set<ObjectKey>)
    requires ObjectKey(c.namespace, "a") !in store && ObjectKey(c.namespace, "a") !in createRejects
    requires ObjectKey(c.namespace, "a") !in getRejects
    ensures c.Create(store, createRejects, "a", "busybox", "echo hello").Ok?
    ensures c.Get(c.Create(store, createRejects, "a", "busybox", "echo hello").value.store, getRejects, "a").spec.template.containers
      == [Container("a", "busybox", ["echo", "hello"])]
  {
    SplitExamples();
  }

  /** A job just deleted is in no later listing of the store. */
  lemma DeleteThenNotListed(c: Client, store: Store, rejects: set<ObjectKey>, name: string, listing: Listing)
    requires c.Delete(store, rejects, name).Ok?
    requires SnapshotOf(listing, c.Delete(store, rejects, name).value, c.namespace)
    ensures forall i :: 0 <= i < |Listed(listing)| ==> Listed(listing)[i].metadata.name != name
  {
  }
}
