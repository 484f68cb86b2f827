/** Start-up, join and destruction of a `Thread`, under every interleaving of the thread that owns
    the object with the thread it starts (nnysl/thread.cpp:13-51, 69-122, nnysl/thread.h:247-276).
    Calls into pthread are assumed to succeed. */
module ThreadStart {
  import opened Wrappers

  /** The fields of the object; `handle` is whether `m_thread` is not zero. */
  datatype Fields<C> = Fields(id: int, handle: bool, cb: Option<C>, name: string)

  datatype OwnerOp = Join | Destroy

  datatype OwnerPc = Constructing | Created | Using(todo: seq<OwnerOp>) | Gone

  datatype ChildPc = Unborn | Born | SelfKnown | NameKnown | IdSet | OsNamed | Taken | Notified | Logged | Exited

  /** `touched` is set if the child ever uses the object when it is gone. */
  datatype State<C> = State(
    fields: Fields<C>, alive: bool, touched: bool,
    owner: OwnerPc, child: ChildPc,
    sem: int, posts: nat, waits: nat,
    localName: string, osName: string, taken: Option<C>, ran: seq<C>,
    joins: nat, detaches: nat)

  /** What the constructor is given, what the kernel calls the child, and what the owner does next. */
  datatype Setup<C> = Setup(cb: C, name: string, id: int, uses: seq<OwnerOp>)

  const UNKNOWN_NAME := "UNKNOW"
  const UNKNOWN_LOCAL := "UNKOWN"

  function Named(name: string): string {
    if name == "" then UNKNOWN_NAME else name
  }

  function FirstChars(s: string, n: nat): string {
    if |s| < n then s else s[..n]
  }

  function Start<C>(u: Setup<C>): State<C> {
    State(Fields(-1, false, Some(u.cb), Named(u.name)), true, false, Constructing, Unborn, 0, 0, 0,
          UNKNOWN_LOCAL, "", None, [], 0, 0)
  }

  // ----- The owner -----

  predicate OwnerEnabled<C>(s: State<C>) {
    match s.owner
    case Constructing => true
    case Created => s.sem > 0
    case Using(todo) => todo != [] && (todo[0] == Join && s.fields.handle ==> s.child == Exited)
    case Gone => false
  }

  function OwnerStep<C>(u: Setup<C>, s: State<C>): State<C>
    requires OwnerEnabled(s)
  {
    match s.owner
    // pthread_create: the child may run before the constructor goes on
    case Constructing => s.(owner := Created, child := Born, fields := s.fields.(handle := true))
    case Created => s.(owner := Using(u.uses), sem := s.sem - 1, waits := s.waits + 1)
    case Using(todo) =>
      var handle := s.fields.handle;
      (match todo[0]
       case Join =>
         s.(owner := Using(todo[1..]), joins := s.joins + (if handle then 1 else 0),
            fields := s.fields.(handle := false))
       case Destroy =>
         s.(owner := Gone, alive := false, detaches := s.detaches + (if handle then 1 else 0)))
  }

  // ----- The child (nnysl/thread.cpp:109-122) -----

  predicate ChildEnabled<C>(s: State<C>) {
    s.child != Unborn && s.child != Exited
  }

  function Touching<C>(s: State<C>): State<C> {
    s.(touched := s.touched || !s.alive)
  }

  function ChildStep<C>(u: Setup<C>, s: State<C>): State<C>
    requires ChildEnabled(s)
  {
    match s.child
    case Born => s.(child := SelfKnown)
    case SelfKnown => Touching(s).(child := NameKnown, localName := s.fields.name)
    case NameKnown => Touching(s).(child := IdSet, fields := s.fields.(id := u.id))
    case IdSet => Touching(s).(child := OsNamed, osName := FirstChars(s.fields.name, 15))
    case OsNamed => Touching(s).(child := Taken, taken := s.fields.cb, fields := s.fields.(cb := None))
    case Taken => Touching(s).(child := Notified, sem := s.sem + 1, posts := s.posts + 1)
    case Notified => s.(child := Logged)
    case Logged => s.(child := Exited, ran := s.ran + if s.taken.Some? then [s.taken.value] else [])
  }

  // ----- Runs -----

  datatype Who = Owner | Child

  predicate Enabled<C>(s: State<C>, w: Who) {
    if w == Owner then OwnerEnabled(s) else ChildEnabled(s)
  }

  function Step<C>(u: Setup<C>, s: State<C>, w: Who): State<C>
    requires Enabled(s, w)
  {
    if w == Owner then OwnerStep(u, s) else ChildStep(u, s)
  }

  predicate Runs<C>(u: Setup<C>, s: State<C>, schedule: seq<Who>)
    decreases |schedule|
  {
    schedule == [] || (Enabled(s, schedule[0]) && Runs(u, Step(u, s, schedule[0]), schedule[1..]))
  }

  function End<C>(u: Setup<C>, s: State<C>, schedule: seq<Who>): State<C>
    requires Runs(u, s, schedule)
    decreases |schedule|
  {
    if schedule == [] then s else End(u, Step(u, s, schedule[0]), schedule[1..])
  }

  /** Any number of joins, then the destructor. */
  predicate JoinsThenDestroy(ops: seq<OwnerOp>) {
    ops != [] && if ops == [Destroy] then true else ops[0] == Join && JoinsThenDestroy(ops[1..])
  }

  // ----- What every step keeps -----

  function Rank(c: ChildPc): nat {
    match c
    case Unborn => 0 case Born => 1 case SelfKnown => 2 case NameKnown => 3 case IdSet => 4 case OsNamed => 5
    case Taken => 6 case Notified => 7 case Logged => 8 case Exited => 9
  }

  ghost predicate ChildInv<C>(u: Setup<C>, s: State<C>) {
    && s.fields.name == Named(u.name)
    && s.fields.id == (if Rank(s.child) >= 4 then u.id else -1)
    && (Rank(s.child) >= 3 ==> s.localName == Named(u.name))
    && (Rank(s.child) >= 5 ==> s.osName == FirstChars(Named(u.name), 15))
    && (if Rank(s.child) >= 6 then s.taken == Some(u.cb) && s.fields.cb == None
        else s.taken == None && s.fields.cb == Some(u.cb))
    && s.ran == (if s.child == Exited then [u.cb] else [])
    && s.posts == (if Rank(s.child) >= 7 then 1 else 0)
  }

  ghost predicate OwnerInv<C>(s: State<C>) {
    && s.sem == s.posts - s.waits && s.sem >= 0
    && s.waits == (if s.owner.Using? || s.owner.Gone? then 1 else 0)
    && (s.child == Unborn <==> s.owner == Constructing)
    && !s.touched && (s.alive <==> s.owner != Gone)
    && (s.owner.Using? ==> JoinsThenDestroy(s.owner.todo))
  }

  /** The pthread is released as often as the handle has been given up. */
  ghost predicate HandleInv<C>(u: Setup<C>, s: State<C>) {
    && (s.owner == Constructing ==> !s.fields.handle && s.joins == 0 && s.detaches == 0)
    && (s.owner == Created ==> s.fields.handle && s.joins == 0 && s.detaches == 0)
    && (s.owner.Using? ==> s.detaches == 0 && s.joins == if s.fields.handle then 0 else 1)
    && (s.owner.Using? ==> if s.fields.handle then s.owner.todo == u.uses else u.uses != [Destroy])
    && (s.owner == Gone ==> s.joins + s.detaches == 1 && (s.joins == 1 <==> u.uses != [Destroy]))
    && (s.joins == 1 ==> s.child == Exited)
  }

  ghost predicate Inv<C>(u: Setup<C>, s: State<C>) {
    ChildInv(u, s) && OwnerInv(s) && HandleInv(u, s)
  }

  lemma OwnerKeepsInv<C>(u: Setup<C>, s: State<C>)
    requires JoinsThenDestroy(u.uses) && Inv(u, s) && OwnerEnabled(s)
    ensures Inv(u, OwnerStep(u, s))
  {
  }

  lemma ChildKeepsChildInv<C>(u: Setup<C>, s: State<C>)
    requires ChildInv(u, s) && ChildEnabled(s)
    ensures ChildInv(u, ChildStep(u, s))
  {
  }

  lemma ChildKeepsOwnerInv<C>(u: Setup<C>, s: State<C>)
    requires Inv(u, s) && ChildEnabled(s)
    ensures OwnerInv(ChildStep(u, s)) && HandleInv(u, ChildStep(u, s))
  {
  }

  lemma ChildKeepsInv<C>(u: Setup<C>, s: State<C>)
    requires Inv(u, s) && ChildEnabled(s)
    ensures Inv(u, ChildStep(u, s))
  {
    ChildKeepsChildInv(u, s);
    ChildKeepsOwnerInv(u, s);
  }

  lemma StepKeepsInv<C>(u: Setup<C>, s: State<C>, w: Who)
    requires JoinsThenDestroy(u.uses) && Inv(u, s) && Enabled(s, w)
    ensures Inv(u, Step(u, s, w))
  {
    if w == Owner {
      OwnerKeepsInv(u, s);
    } else {
      ChildKeepsInv(u, s);
    }
  }

  lemma {:induction false} RunKeepsInv<C>(u: Setup<C>, s: State<C>, schedule: seq<Who>)
    requires JoinsThenDestroy(u.uses) && Inv(u, s) && Runs(u, s, schedule)
    ensures Inv(u, End(u, s, schedule))
    decreases |schedule|
  {
    if schedule != [] {
      StepKeepsInv(u, s, schedule[0]);
      RunKeepsInv(u, Step(u, s, schedule[0]), schedule[1..]);
    }
  }

  ghost predicate Reaches<C>(u: Setup<C>, schedule: seq<Who>, s: State<C>) {
    JoinsThenDestroy(u.uses) && Runs(u, Start(u), schedule) && s == End(u, Start(u), schedule)
  }

  lemma ReachedInv<C>(u: Setup<C>, schedule: seq<Who>, s: State<C>)
    requires Reaches(u, schedule, s)
    ensures Inv(u, s)
  {
    RunKeepsInv(u, Start(u), schedule);
  }

  // ----- What holds of every run -----

  /** When the constructor returns, the child has set the id and its names and taken the callback: the
      name is the one given, unless that is empty, and the system's is its first 15 characters. */
  lemma ConstructorWaits<C>(u: Setup<C>, schedule: seq<Who>, s: State<C>)
    requires Reaches(u, schedule, s) && (s.owner.Using? || s.owner.Gone?)
    ensures s.fields.id == u.id && s.fields.cb == None && s.taken == Some(u.cb)
    ensures s.fields.name == (if u.name != "" then u.name else "UNKNOW") && s.localName == s.fields.name
    ensures |s.osName| == (if |s.fields.name| < 15 then |s.fields.name| else 15)
    ensures s.osName == s.fields.name[..|s.osName|]
  {
    ReachedInv(u, schedule, s);
  }

  /** The child never uses an object that is gone: once it has notified, nothing it does depends on
      the object or changes it. */
  lemma ObjectIsSafe<C>(u: Setup<C>, schedule: seq<Who>, s: State<C>, other: Fields<C>)
    requires Reaches(u, schedule, s)
    ensures !s.touched
    ensures ChildEnabled(s) && s.owner.Gone? ==> Rank(s.child) >= 7
    ensures ChildEnabled(s) && Rank(s.child) >= 7 ==>
              ChildStep(u, s.(fields := other)) == ChildStep(u, s).(fields := other)
  {
    ReachedInv(u, schedule, s);
  }

  /** The callback given is the one that runs, once, and not before the child has notified. */
  lemma CallbackRunsOnce<C>(u: Setup<C>, schedule: seq<Who>, s: State<C>)
    requires Reaches(u, schedule, s)
    ensures s.ran == if s.child == Exited then [u.cb] else []
    ensures s.joins > 0 ==> s.ran == [u.cb]
  {
    ReachedInv(u, schedule, s);
  }

  lemma SemaphoreCounts<C>(u: Setup<C>, schedule: seq<Who>, s: State<C>)
    requires Reaches(u, schedule, s)
    ensures s.sem == s.posts - s.waits && 0 <= s.sem <= 1
  {
    ReachedInv(u, schedule, s);
  }

  /** Joined or detached, never both, and exactly once by the time the object is gone. */
  lemma ReleasedOnce<C>(u: Setup<C>, schedule: seq<Who>, s: State<C>)
    requires Reaches(u, schedule, s)
    ensures s.joins + s.detaches <= 1
    ensures s.owner.Gone? ==> s.joins + s.detaches == 1
    ensures s.owner.Gone? ==> (s.joins == 1 <==> u.uses != [Destroy])
  {
    ReachedInv(u, schedule, s);
  }

  function Work<C>(u: Setup<C>, s: State<C>): nat {
    (9 - Rank(s.child)) + match s.owner case Constructing => |u.uses| + 2 case Created => |u.uses| + 1
                                        case Using(todo) => |todo| case Gone => 0
  }

  lemma StepWorks<C>(u: Setup<C>, s: State<C>, w: Who)
    requires Inv(u, s) && Enabled(s, w)
    ensures Work(u, Step(u, s, w)) < Work(u, s)
  {
  }

  lemma {:induction false} RunWorks<C>(u: Setup<C>, s: State<C>, schedule: seq<Who>)
    requires JoinsThenDestroy(u.uses) && Inv(u, s) && Runs(u, s, schedule)
    ensures Work(u, End(u, s, schedule)) + |schedule| <= Work(u, s)
    decreases |schedule|
  {
    if schedule != [] {
      StepWorks(u, s, schedule[0]);
      StepKeepsInv(u, s, schedule[0]);
      RunWorks(u, Step(u, s, schedule[0]), schedule[1..]);
    }
  }

  /** Each step, of either thread, leaves less to do. */
  lemma EveryStepWorks<C>(u: Setup<C>, schedule: seq<Who>, s: State<C>, w: Who)
    requires Reaches(u, schedule, s) && Enabled(s, w)
    ensures Work(u, Step(u, s, w)) < Work(u, s)
  {
    ReachedInv(u, schedule, s);
    StepWorks(u, s, w);
  }

  /** Nobody waits for ever: every run is bounded, and one that cannot be continued has destroyed the
      object and let the child exit. */
  lemma EveryRunEnds<C>(u: Setup<C>, schedule: seq<Who>, s: State<C>)
    requires Reaches(u, schedule, s)
    ensures |schedule| <= Work(u, Start(u))
    ensures (forall w :: !Enabled(s, w)) ==> s.owner.Gone? && s.child == Exited
  {
    ReachedInv(u, schedule, s);
    RunWorks(u, Start(u), schedule);
    assert Enabled(s, Owner) <==> OwnerEnabled(s);
    assert Enabled(s, Child) <==> ChildEnabled(s);
  }
}
