/**
 * The batch Job descriptor, as far as the job client fills it in, and its
 * construction from the arguments of Create.
 */
module Jobs {
  import opened Wrappers
  import opened Tokens
  import opened Labels

  newtype int32 = x: int | -0x8000_0000 <= x < 0x8000_0000

  /** A pod's restart policy; `Unset` is the empty string a zero descriptor holds. */
  datatype RestartPolicy = Unset | Always | OnFailure | Never

  datatype Container = Container(name: string, image: string, command: seq<string>)

  datatype PodSpec = PodSpec(containers: seq<Container>, restartPolicy: RestartPolicy)

  /** The two optional integers are pointer fields; `None` is a nil pointer. */
  datatype JobSpec = JobSpec(
    ttlSecondsAfterFinished: Option<int32>,
    backoffLimit: Option<int32>,
    template: PodSpec)

  datatype ObjectMeta = ObjectMeta(name: string, namespace: string, labels: LabelMap)

  datatype Job = Job(metadata: ObjectMeta, spec: JobSpec)

  /** The zero-valued descriptor: no name, no labels, no containers. */
  const ZeroJob: Job := Job(ObjectMeta("", "", map[]), JobSpec(None, None, PodSpec([], Unset)))

  /**
   * The shape every descriptor built by Create has: owned (selected by the owner
   * selector), never retried, removed as soon as it finishes, one container
   * named after the job, and pods that are never restarted.
   */
  predicate IsOwnedJob(j: Job)
  {
    && Matches(OwnerSelector, j.metadata.labels)
    && j.spec.ttlSecondsAfterFinished == Some(0)
    && j.spec.backoffLimit == Some(0)
    && |j.spec.template.containers| == 1
    && j.spec.template.containers[0].name == j.metadata.name
    && j.spec.template.restartPolicy == Never
  }

  /** The job's only container, for descriptors of that shape. */
  function MainContainer(j: Job): Container
    requires IsOwnedJob(j)
  {
    j.spec.template.containers[0]
  }

  /** The descriptor Create submits for a job `name` running `image` with command line `cmd`. */
  function BuildJob(namespace: string, name: string, image: string, cmd: string): (j: Job)
    ensures IsOwnedJob(j)
    ensures j.metadata.name == name && j.metadata.namespace == namespace
    ensures j.metadata.labels == OwnerLabels()
    ensures MainContainer(j).image == image
    ensures Join(MainContainer(j).command, ' ') == cmd
    ensures |MainContainer(j).command| == Occurrences(cmd, ' ') + 1
    ensures FreeOf(MainContainer(j).command, ' ')
  {
    OwnerSelectorMatches(OwnerLabels());
    JoinSplit(cmd, ' ');
    var ttlAfterFinished: int32 := 0;
    var backOffLimit: int32 := 0;
    Job(
      ObjectMeta(name, namespace, OwnerLabels()),
      JobSpec(
        Some(ttlAfterFinished),
        Some(backOffLimit),
        PodSpec([Container(name, image, Split(cmd, ' '))], Never)))
  }

  /** The zero descriptor does not have the shape of any job the client creates. */
  lemma ZeroJobIsNotOwned()
    ensures !IsOwnedJob(ZeroJob)
  {
  }
}
