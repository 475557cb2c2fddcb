# Kubernetes job client for k6, modelled in Dafny

This project models the job client of the k6 extension `xk6-kubernetes-jobs`. A
`Client` is bound to one namespace. It creates batch Jobs tagged with the
ownership label `job-type=k6`, and it lists and deletes them one at a time. It
finds the jobs it owns by asking the API server for the label selector
`job-type=k6`.

The model follows the source's structure:

- `Tokens` (`tokens.dfy`) models Go's `strings.Split` for a one-character
  separator, which Create uses to turn a command line into the container's argv.
  It also defines the inverse, `strings.Join`.
- `Labels` (`labels.dfy`) holds the ownership label, the selector string, and
  the semantics of a single `key=value` equality selector.
- `Jobs` (`jobs.dfy`) holds the Job descriptor (metadata, spec, pod template,
  container) and `BuildJob`, the literal Create builds.
- `Cluster` (`cluster.dfy`) models the batch-job API that the client calls but
  cannot see. It is a store of jobs keyed by namespace and name. The create,
  delete and get requests act on it. A set `rejects` stands for every key on
  which the server refuses a request: authorization, validation, connectivity.
- `JobClient` (`job_client.dfy`) models the client itself: `Create`, `Delete`,
  `DeleteAll`, `List` and `Get`. It is a datatype because the source's client
  never changes after it is built. The jobs store is passed in and returned
  instead of living in the remote server.
  - The server's answer to a list request is an input (`Listing`).
  - `DeleteAll` and `List` are methods with the same loops as the source.
  - `DeleteAll` is proved equal to `DeleteEach`, a specification function.
    The lemmas about "which jobs go, which stay" are proved about `DeleteEach`.

Errors that the source treats as fatal (`log.Fatalln`) become `Err`/`Fail`
results, and the caller must treat them as unrecoverable. Errors that the
source discards (the list and get calls) are discarded in the model as well. A
failed list request is taken as an empty list. A failed get gives the zero
descriptor `ZeroJob`.

## Model

| member | source | states |
|---|---|---|
| Tokens.Split | main.go:83 | a command with k spaces splits into exactly k+1 tokens, and no token contains a space |
| Tokens.JoinSplit | main.go:83 | joining the tokens of a split with the same separator gives back the original command |
| Tokens.SplitJoin | main.go:83 | splitting the join of a non-empty list of separator-free tokens gives back that list (the other direction of the round trip) |
| Tokens.SplitExamples | main.go:83 | `"echo  hello"` splits into `["echo", "", "hello"]`, `"echo hello"` into `["echo", "hello"]`, and `""` into `[""]` |
| Labels.OwnerLabels | main.go:73 | the label map of a created job has exactly one key, `job-type`, with value `k6` |
| Labels.ParseSelector | main.go:112-114 | a selector that parses reads back to a requirement that renders to exactly that string, with a non-empty key made of label characters and at most one `/`, and a value made of label characters only |
| Labels.ParseSelectorRefuses | main.go:112-114 | the strings `a!=b` and `a,b=c` are refused rather than read as an equality on some other key |
| Labels.ParseSelectorRefusesBlanks | main.go:127-129 | the strings `a = b` and `a==b` are refused rather than read as an equality on a key or value holding blanks or `=` |
| Labels.ParseSelectorRefusesSlashes | main.go:112-114 | a `/` in a value (`a=b/c`) and a second `/` in a key (`a/b/c=d`) are refused |
| Labels.ParseRender | main.go:127-129 | a well-formed `key=value` requirement, rendered and parsed, gives back the same requirement |
| Labels.OwnerSelectorMatches | main.go:127-129 | the selector string `job-type=k6` used by List and DeleteAll selects a label map exactly when that map has the label Create attaches (both directions) |
| Jobs.BuildJob | main.go:66-91 | the descriptor has the given name and namespace, labels exactly `{job-type: k6}`, TTL-after-finished 0 and backoff limit 0, one container named after the job with the given image, restart policy Never, and a command that joins back to `cmd` and has one token more than `cmd` has spaces |
| Jobs.ZeroJobIsNotOwned | main.go:139-140 | the zero descriptor that a failed get yields never has the shape of a job the client creates |
| Cluster.CreateJob | main.go:93-96 | a create request succeeds exactly when the job's key is free and not refused; then the store holds the job under its key and nothing else changes; an error names that key, and it is AlreadyExists exactly when the request was not refused and the key was taken |
| Cluster.DeleteJob | main.go:103-106 | a delete request succeeds exactly when the key is stored and not refused; then that key is gone and nothing else changes; an error is NotFound exactly when the request was not refused and the key was absent |
| Cluster.GetJob | main.go:139 | a get request succeeds exactly when the key is stored and not refused, and then returns the stored job; an error is NotFound exactly when the request was not refused and the key was absent |
| Cluster.RequestsKeepWellKeyed | main.go:93-97 | create and delete requests keep every job stored under its own namespace and name |
| JobClient.DeleteEachEffect | main.go:115-120 | deleting a list of keys in order removes exactly a prefix of them and nothing else, and every key of that prefix was stored, not refused and not repeated, so each deletion in it went through; it stops early only on failure, and the failure is the error for the first key not removed, which stays as it was, as do all later keys not in the prefix |
| JobClient.DeleteEachSucceedsIff | main.go:115-120 | the sequence of deletions completes exactly when every key is stored, none is refused and none repeats |
| JobClient.Client.Create | main.go:64-98 | succeeds exactly when the name is free in the client's namespace and not refused; returns the created job's name, which equals the given name; the store then holds `BuildJob(namespace, name, image, cmd)` under that name, and every other key is unchanged |
| JobClient.Client.Delete | main.go:101-107 | succeeds exactly when the name is stored in the client's namespace and not refused; removes that one job and leaves every other key, in every namespace, unchanged |
| JobClient.Client.DeleteAll | main.go:110-121 | the loop's outcome and final store are those of `DeleteEach` over the listed names in the client's namespace, in list order; a failed list request deletes nothing |
| JobClient.Client.List | main.go:124-134 | returns one name per listed item, in list order, each the name of that item; a failed list request gives the empty list |
| JobClient.Client.Get | main.go:137-141 | returns the stored job when it is present and the request is not refused, and otherwise the zero descriptor |
| JobClient.ListedJobsAreOwned | main.go:127-129 | if the server honours the selector `job-type=k6`, every job that List or DeleteAll sees carries the label `job-type=k6` |
| JobClient.DeleteAllSparesForeignJobs | main.go:111-120 | if the listing honours the owner selector and is a snapshot of the store, DeleteAll leaves every job of another namespace and every job without the ownership label untouched |
| JobClient.GetReturnsRequestedJob | main.go:137-141 | on a store that keeps every job under its own namespace and name, Get yields either the zero descriptor or a job with the requested name in the client's namespace |
| JobClient.ClientKeepsWellKeyed | main.go:93-106 | a successful Create or Delete keeps every job of the store under its own namespace and name |
| JobClient.CreateThenGet | main.go:93-97 | after a successful Create, a Get of that name that its own refusal set does not refuse returns exactly the descriptor built for it, which is not the zero descriptor |
| JobClient.CreateThenDelete | main.go:101-107 | deleting the job that Create just made, with a delete request that its own refusal set does not refuse, gives back the original store |
| JobClient.CreateGetExample | main.go:79-86 | Create of `a` with image `busybox` and command `echo hello`, followed by a Get of `a` that is not refused, shows the single container `a` running `busybox` with command `["echo", "hello"]` |
| JobClient.DeleteThenNotListed | main.go:101-107 | after a successful Delete of a name, no listing that is a snapshot of the new store contains that name |

## Left out

- `clientFromConfig` (main.go:42-61) is not modelled. It reads `HOME`, loads the kubeconfig file and builds the clientset, which is environment I/O and calls into client-go.
- `init`, `Job` and `XClient` (main.go:22-40) are not modelled. They register the module with the k6 runtime and bind the client to JavaScript. The hard-coded namespace `"observability"` becomes the `namespace` field of `Client`.
- `example.js` is not modelled. It is a demo script with no logic of its own.
- The real client-go calls and `context.TODO()` become the functions of `Cluster` acting on a map. The server fields that the client never sets or reads are not modelled: status, UID, defaults and resource version.
- The server's label-selector evaluation and the order of its list answer are not modelled. A listing is an input. The lemmas that need server filtering take it as the precondition `Answers(listing, "job-type=k6")`. The lemmas that need the listing to match the store take `SnapshotOf`.
- Labels.ParseSelector reads only a single `key=value` term whose key and value consist of label characters (letters, digits, `-`, `_`, `.`, and in a key at most one `/` separating the prefix), which is the form the client sends. Every other string is refused, not interpreted. That includes `==`, `!=`, set-based terms, comma-separated lists and blanks around `=`. The API server's length limits and its rule that a label starts and ends with a letter or digit are not modelled.
- Name validation is not modelled. The server's refusals (authorization, validation, connectivity) are lumped into the abstract `rejects` set and are checked first, as the server authorizes and validates a request before it looks the key up. Only a request that is not refused then fails with `AlreadyExists` on a taken key (Create) or `NotFound` on a missing key (Delete, Get).
- `log.Fatalln` ends the process in the source. Here it is an `Err`/`Fail` result. A failed Create or Delete returns no store, so the caller's store stands.
- JobClient.Client.Get returns the zero descriptor on any error. This is the behaviour the model assumes of the typed clientset, which builds the result object before decoding and returns it together with the error.
- JobClient.DeleteThenNotListed holds for the map abstraction only: `DeleteJob` removes the key at once, while the API server may delete a Job through garbage collection and keep listing it for a moment.
- JobClient.CreateThenGet, JobClient.CreateThenDelete and JobClient.CreateGetExample give the second request its own refusal set, because authorization is granted per verb and a connection can drop between two requests. They promise nothing about a second request that is refused; that Get then yields the zero descriptor (`Client.Get`) and that Delete fails (`Client.Delete`).
- Concurrency is not modelled: other actors changing the store between the list request and the deletions, and timeouts or hangs of the API server.
- `int32` is a bounded newtype. The two constants 0 are within range, so no wrap-around arises.

## Notes on the source

- The source splits a command on the single character `' '` only. Tabs and other whitespace stay inside tokens, and runs of spaces give empty tokens. The model does the same.
