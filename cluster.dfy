/**
 * The cluster's batch-job API as the job client sees it: a store of jobs keyed
 * by namespace and name, and the create, delete and get requests against it.
 * `rejects` stands for every reason the API server may refuse a request on a
 * key (authorization, validation, connectivity) that the client cannot see.
 */
module Cluster {
  import opened Wrappers
  import opened Jobs

  datatype ObjectKey = ObjectKey(namespace: string, name: string)

  type Store = map<ObjectKey, Job>

  datatype ApiError = NotFound(key: ObjectKey) | AlreadyExists(key: ObjectKey) | Rejected(key: ObjectKey)

  function KeyOf(j: Job): ObjectKey
  {
    ObjectKey(j.metadata.namespace, j.metadata.name)
  }

  /** Every job is stored under its own namespace and name. */
  ghost predicate WellKeyed(store: Store)
  {
    forall k :: k in store ==> KeyOf(store[k]) == k
  }

  /** `after` and `before` agree on every key but `key`. */
  ghost predicate SameExcept(after: Store, before: Store, key: ObjectKey)
  {
    forall k :: k != key ==> (k in after <==> k in before) && (k in after ==> after[k] == before[k])
  }

  /**
   * Submits a new job; it is stored under its own key unless the request is
   * refused or that key is taken. A refusal comes first: the server authorizes
   * and validates a request before it looks the key up.
   */
  function CreateJob(store: Store, rejects: set<ObjectKey>, j: Job): (r: Result<Store, ApiError>)
    ensures r.Ok? <==> KeyOf(j) !in store && KeyOf(j) !in rejects
    ensures r.Ok? ==> KeyOf(j) in r.value && r.value[KeyOf(j)] == j && SameExcept(r.value, store, KeyOf(j))
    ensures r.Err? ==> r.error.key == KeyOf(j) && (r.error.AlreadyExists? <==> KeyOf(j) in store && KeyOf(j) !in rejects)
  {
    var key := KeyOf(j);
    if key in rejects then Err(Rejected(key))
    else if key in store then Err(AlreadyExists(key))
    else Ok(store[key := j])
  }

  /** Deletes the job stored under `key`; a refused request or a missing key is an error, a refusal first. */
  function DeleteJob(store: Store, rejects: set<ObjectKey>, key: ObjectKey): (r: Result<Store, ApiError>)
    ensures r.Ok? <==> key in store && key !in rejects
    ensures r.Ok? ==> key !in r.value && SameExcept(r.value, store, key)
    ensures r.Err? ==> r.error.key == key && (r.error.NotFound? <==> key !in store && key !in rejects)
  {
    if key in rejects then Err(Rejected(key))
    else if key !in store then Err(NotFound(key))
    else Ok(store - {key})
  }

  /** Fetches the job stored under `key`; a refused request or a missing key is an error, a refusal first. */
  function GetJob(store: Store, rejects: set<ObjectKey>, key: ObjectKey): (r: Result<Job, ApiError>)
    ensures r.Ok? <==> key in store && key !in rejects
    ensures r.Ok? ==> r.value == store[key]
    ensures r.Err? ==> r.error.key == key && (r.error.NotFound? <==> key !in store && key !in rejects)
  {
    if key in rejects then Err(Rejected(key))
    else if key !in store then Err(NotFound(key))
    else Ok(store[key])
  }

  /** Removing the one key on which two stores differ, and which `before` lacks, gives `before`. */
  lemma RemoveRestores(after: Store, before: Store, key: ObjectKey)
    requires SameExcept(after, before, key) && key !in before
    ensures after - {key} == before
  {
    var restored := after - {key};
    assert restored.Keys == before.Keys;
  }

  /** Creating and deleting keep every job under its own key. */
  lemma RequestsKeepWellKeyed(store: Store, rejects: set<ObjectKey>, j: Job, key: ObjectKey)
    requires WellKeyed(store)
    ensures CreateJob(store, rejects, j).Ok? ==> WellKeyed(CreateJob(store, rejects, j).value)
    ensures DeleteJob(store, rejects, key).Ok? ==> WellKeyed(DeleteJob(store, rejects, key).value)
  {
  }
}
