/**
 * `create_extra_vdis`: for each `--extra-vdis` entry, create a VDI on the
 * entry's SR and attach it to the new VM through a VBD whose user device
 * is a running counter. An attach that fails is tried once more on the
 * next device number; a second failure destroys the VDI and re-raises.
 *
 * The hypervisor calls are recorded as a log of effects. Whether an
 * attach succeeds is not decided here: `fails(k, attempt)` says whether
 * attempt `attempt` (0 or 1) for entry number `k` (0-based) is refused.
 */
module VdiAttach {
  import opened Wrappers
  import opened Xen
  import opened RubyStrings
  import opened StorageAdmission
  import opened ExtraVdis

  /** One hypervisor call made by `create_extra_vdis`; `userdevice` is the device number, sent as its decimal string. */
  datatype Effect =
    | CreateVdi(name: string, sr: StorageRepository, bytes: nat)
    | AttachVbd(vdi: string, userdevice: nat, attached: bool)
    | DestroyVdi(vdi: string)

  /** The calls made, in order, and the error raised, if any. */
  datatype Outcome = Outcome(effects: seq<Effect>, error: Option<Error>)

  /** `"#{vm_name}-extra-vdi-#{count}"`. */
  function VdiName(vmName: string, count: nat): string {
    vmName + "-extra-vdi-" + DecimalString(count)
  }

  /**
   * The SR an entry's VDI goes to: for a bare size the first pool's default
   * SR (whose absence fails once its name is read), otherwise the first SR
   * with the given name. Unlike the disk-space check, the name `default`
   * is not special here.
   */
  function VdiRepository(storage: Storage, v: VdiSpec): (r: Result<StorageRepository, Error>)
    ensures v.sr.None? ==> (r.Ok? <==> storage.defaultSr.Some?)
    ensures v.sr.None? && r.Ok? ==> r.value == storage.defaultSr.value
    ensures v.sr.None? && r.Err? ==> r.error == NoDefaultStorageRepository
    ensures v.sr.Some? ==> (r.Ok? <==> FindSr(storage.repositories, v.sr.value).Some?)
    ensures v.sr.Some? && r.Ok? ==> r == Ok(FindSr(storage.repositories, v.sr.value).value)
    ensures v.sr.Some? && r.Err? ==> r.error == StorageRepositoryNotAvailable(v.sr.value)
  {
    match v.sr
    case None =>
      if storage.defaultSr.None? then Err(NoDefaultStorageRepository) else Ok(storage.defaultSr.value)
    case Some(name) =>
      match FindSr(storage.repositories, name)
      case None => Err(StorageRepositoryNotAvailable(name))
      case Some(sr) => Ok(sr)
  }

  /**
   * The `2.times` retry for the VDI `name` of entry `k`, first tried on
   * device `count`: the calls made, the counter afterwards, and whether
   * the VDI ended up attached.
   */
  function AttachWithRetry(name: string, count: nat, k: nat, fails: (nat, nat) -> bool): (seq<Effect>, nat, bool) {
    if !fails(k, 0) then ([AttachVbd(name, count, true)], count, true)
    else if !fails(k, 1) then ([AttachVbd(name, count, false), AttachVbd(name, count + 1, true)], count + 1, true)
    else ([AttachVbd(name, count, false), AttachVbd(name, count + 1, false), DestroyVdi(name)], count + 1, false)
  }

  /** What an entry asks for and the SR its VDI goes to, or the error raised before anything is created. */
  function Prepare(entry: string, storage: Storage): (r: Result<(VdiSpec, StorageRepository), Error>)
    ensures ParseEntry(entry).Err? ==> r == Err(InvalidVdiSize)
    ensures ParseEntry(entry).Ok? ==>
              match VdiRepository(storage, ParseEntry(entry).value)
              case Err(e) => r == Err(e)
              case Ok(sr) => r == Ok((ParseEntry(entry).value, sr))
  {
    match ParseEntry(entry)
    case Err(e) => Err(e)
    case Ok(v) =>
      match VdiRepository(storage, v)
      case Err(e) => Err(e)
      case Ok(sr) => Ok((v, sr))
  }

  /**
   * Creating the VDI for entry `k` on `sr` and attaching it, when the
   * counter stands at `count` and has just been bumped to `count + 1`:
   * the calls made, the counter afterwards, and the error raised.
   */
  function Pass(vmName: string, v: VdiSpec, sr: StorageRepository, k: nat, count: nat, fails: (nat, nat) -> bool)
    : (seq<Effect>, nat, Option<Error>)
  {
    var name := VdiName(vmName, count + 1);
    var (attach, count', attached) := AttachWithRetry(name, count + 1, k, fails);
    ([CreateVdi(name, sr, v.sizeMiB * MiB)] + attach, count', if attached then None else Some(VbdAttachFailed(name)))
  }

  /**
   * One pass of the loop body for entry `k` when the counter stands at
   * `count`. A malformed size or an unknown SR raises before anything is
   * created.
   */
  function Step(vmName: string, entry: string, k: nat, count: nat, storage: Storage, fails: (nat, nat) -> bool)
    : (seq<Effect>, nat, Option<Error>)
  {
    match Prepare(entry, storage)
    case Err(e) => ([], count + 1, Some(e))
    case Ok((v, sr)) => Pass(vmName, v, sr, k, count, fails)
  }

  /** What `create_extra_vdis` does with entries `k..` when the counter stands at `count`: the passes in order, up to the first error. */
  function Run(vmName: string, entries: seq<string>, k: nat, count: nat, storage: Storage, fails: (nat, nat) -> bool): Outcome
    decreases |entries| - k
  {
    if k >= |entries| then Outcome([], None)
    else
      var (here, count', error) := Step(vmName, entries[k], k, count, storage, fails);
      if error.Some? then Outcome(here, error)
      else
        var rest := Run(vmName, entries, k + 1, count', storage, fails);
        Outcome(here + rest.effects, rest.error)
  }

  /** The calls `prefix`, followed by the run `o`. */
  function Then(prefix: seq<Effect>, o: Outcome): (r: Outcome)
    ensures |r.effects| == |prefix| + |o.effects| && r.error == o.error
    ensures r.effects[..|prefix|] == prefix && r.effects[|prefix|..] == o.effects
  {
    Outcome(prefix + o.effects, o.error)
  }

  lemma ThenAssociates(a: seq<Effect>, b: seq<Effect>, o: Outcome)
    ensures Then(a, Then(b, o)) == Then(a + b, o)
  {
    assert a + (b + o.effects) == (a + b) + o.effects;
  }

  /** One entry's step, and the run goes on after it only when that step raised nothing. */
  lemma RunStep(vmName: string, entries: seq<string>, k: nat, count: nat, storage: Storage, fails: (nat, nat) -> bool)
    requires k < |entries|
    ensures var step := Step(vmName, entries[k], k, count, storage, fails);
            Run(vmName, entries, k, count, storage, fails)
              == if step.2.Some? then Outcome(step.0, step.2) else Then(step.0, Run(vmName, entries, k + 1, step.1, storage, fails))
  {
  }

  /** The whole of `create_extra_vdis`: nothing at all when the option is unset. */
  function ExtraVdisOutcome(vmName: string, option: Option<string>, storage: Storage, fails: (nat, nat) -> bool): Outcome {
    match option
    case None => Outcome([], None)
    case Some(s) => Run(vmName, Entries(s), 0, 0, storage, fails)
  }

  // ---------------------------------------------------------------------
  // Counting over the log of calls
  // ---------------------------------------------------------------------

  /** How many calls in `effs` satisfy `p`. */
  function Count(effs: seq<Effect>, p: Effect -> bool): nat {
    if |effs| == 0 then 0 else Count(effs[..|effs| - 1], p) + (if p(effs[|effs| - 1]) then 1 else 0)
  }

  lemma {:induction false} CountAppend(a: seq<Effect>, b: seq<Effect>, p: Effect -> bool)
    ensures Count(a + b, p) == Count(a, p) + Count(b, p)
    decreases |b|
  {
    if |b| == 0 {
      assert a + b == a;
    } else {
      assert (a + b)[..|a + b| - 1] == a + b[..|b| - 1];
      CountAppend(a, b[..|b| - 1], p);
    }
  }

  lemma CountPrefix(effs: seq<Effect>, j: nat, p: Effect -> bool)
    requires j < |effs|
    ensures Count(effs[..j + 1], p) == Count(effs[..j], p) + (if p(effs[j]) then 1 else 0)
  {
    assert effs[..j + 1][..j] == effs[..j];
  }

  lemma {:induction false} CountNone(effs: seq<Effect>, p: Effect -> bool)
    requires forall i :: 0 <= i < |effs| ==> !p(effs[i])
    ensures Count(effs, p) == 0
    decreases |effs|
  {
    if |effs| > 0 {
      CountNone(effs[..|effs| - 1], p);
    }
  }

  predicate IsCreate(e: Effect) { e.CreateVdi? }
  predicate IsFailedAttach(e: Effect) { e.AttachVbd? && !e.attached }

  /** The number of VDIs created in `effs`. */
  function Creates(effs: seq<Effect>): nat { Count(effs, IsCreate) }

  /** The number of refused attach attempts in `effs`. */
  function Failures(effs: seq<Effect>): nat { Count(effs, IsFailedAttach) }

  /** The number of attach attempts for the VDI named `name` in `effs`. */
  function Attempts(effs: seq<Effect>, name: string): nat {
    Count(effs, AttachOf(name))
  }

  /** Whether a call is an attach attempt for the VDI named `name`. */
  function AttachOf(name: string): Effect -> bool {
    (e: Effect) => e.AttachVbd? && e.vdi == name
  }

  predicate IsSuccessfulAttach(e: Effect) { e.AttachVbd? && e.attached }

  // ---------------------------------------------------------------------
  // VDI names
  // ---------------------------------------------------------------------

  /** Different counter values give different VDI names. */
  lemma VdiNameInjective(vmName: string, a: nat, b: nat)
    requires VdiName(vmName, a) == VdiName(vmName, b)
    ensures a == b
  {
    var prefix := vmName + "-extra-vdi-";
    assert VdiName(vmName, a)[|prefix|..] == DecimalString(a);
    assert VdiName(vmName, b)[|prefix|..] == DecimalString(b);
    DecimalStringValue(a);
    DecimalStringValue(b);
  }

  /** `name` is the name of a VDI whose number is above `count`. */
  ghost predicate NamedAbove(vmName: string, name: string, count: nat) {
    exists c: nat :: c > count && name == VdiName(vmName, c)
  }

  /** The name a call refers to. */
  function NameOf(e: Effect): string {
    match e
    case CreateVdi(name, _, _) => name
    case AttachVbd(vdi, _, _) => vdi
    case DestroyVdi(vdi) => vdi
  }

  // ---------------------------------------------------------------------
  // Properties of the calls made from entries `k..` with the counter at `count`
  // ---------------------------------------------------------------------

  /**
   * Every attach attempt in `effs` uses device number `count + c + f`,
   * where `c` is the number of VDIs created so far (the one being attached
   * included) and `f` the number of attempts refused before it.
   */
  predicate DevicesFollowCounter(effs: seq<Effect>, count: nat) {
    forall i :: 0 <= i < |effs| && effs[i].AttachVbd? ==>
      effs[i].userdevice == count + Creates(effs[..i + 1]) + Failures(effs[..i])
  }

  /** Within one pass the device numbers follow the counter, which the pass leaves at its last device. */
  lemma PassDevices(vmName: string, v: VdiSpec, sr: StorageRepository, k: nat, count: nat, fails: (nat, nat) -> bool)
    ensures var (here, count', error) := Pass(vmName, v, sr, k, count, fails);
            && (forall i :: 0 <= i < |here| && here[i].AttachVbd? ==>
                  here[i].userdevice == count + Creates(here[..i + 1]) + Failures(here[..i]))
            && (error.None? ==> count' == count + Creates(here) + Failures(here))
  {
    var (here, count', error) := Pass(vmName, v, sr, k, count, fails);
    assert here[..0] == [];
    CountPrefix(here, 0, IsCreate);
    CountPrefix(here, 0, IsFailedAttach);
    CountPrefix(here, 1, IsCreate);
    CountPrefix(here, 1, IsFailedAttach);
    if |here| > 2 {
      CountPrefix(here, 2, IsCreate);
      CountPrefix(here, 2, IsFailedAttach);
    }
    assert here[..|here|] == here;
  }

  lemma StepDevices(vmName: string, entry: string, k: nat, count: nat, storage: Storage, fails: (nat, nat) -> bool)
    ensures var (here, count', error) := Step(vmName, entry, k, count, storage, fails);
            && (forall i :: 0 <= i < |here| && here[i].AttachVbd? ==>
                  here[i].userdevice == count + Creates(here[..i + 1]) + Failures(here[..i]))
            && (error.None? ==> count' == count + Creates(here) + Failures(here))
  {
    match Prepare(entry, storage)
    case Err(_) =>
    case Ok((v, sr)) => PassDevices(vmName, v, sr, k, count, fails);
  }

  /**
   * Every attach attempt uses device number `count + c + f`, where `c` is
   * the number of VDIs created so far (this one included) and `f` the
   * number of attempts refused before it.
   */
  lemma {:induction false} RunDevices(vmName: string, entries: seq<string>, k: nat, count: nat, storage: Storage, fails: (nat, nat) -> bool)
    ensures DevicesFollowCounter(Run(vmName, entries, k, count, storage, fails).effects, count)
    decreases |entries| - k
  {
    if k < |entries| {
      var (here, count', error) := Step(vmName, entries[k], k, count, storage, fails);
      StepDevices(vmName, entries[k], k, count, storage, fails);
      if error.None? {
        RunDevices(vmName, entries, k + 1, count', storage, fails);
        var rest := Run(vmName, entries, k + 1, count', storage, fails).effects;
        var effs := here + rest;
        forall i | 0 <= i < |effs| && effs[i].AttachVbd?
          ensures effs[i].userdevice == count + Creates(effs[..i + 1]) + Failures(effs[..i])
        {
          if i < |here| {
            assert effs[..i + 1] == here[..i + 1] && effs[..i] == here[..i];
          } else {
            var j := i - |here|;
            assert effs[i] == rest[j];
            assert effs[..i + 1] == here + rest[..j + 1] && effs[..i] == here + rest[..j];
            assert 0 <= j < |rest| && rest[j].AttachVbd?;
            assert rest[j].userdevice == count' + Creates(rest[..j + 1]) + Failures(rest[..j]);
            CountAppend(here, rest[..j + 1], IsCreate);
            CountAppend(here, rest[..j], IsFailedAttach);
          }
        }
      }
    }
  }

  /** Device numbers in `effs` are all above `count`. */
  predicate DevicesAbove(effs: seq<Effect>, count: nat) {
    forall i :: 0 <= i < |effs| && effs[i].AttachVbd? ==> effs[i].userdevice > count
  }

  /** No two attach attempts in `effs` use the same device, and later attempts use higher devices. */
  predicate DevicesIncreasing(effs: seq<Effect>) {
    forall i, j :: 0 <= i < j < |effs| && effs[i].AttachVbd? && effs[j].AttachVbd? ==> effs[i].userdevice < effs[j].userdevice
  }

  /** A pass uses devices from `count + 1` up to the counter it leaves behind, in increasing order. */
  lemma PassDeviceRange(vmName: string, v: VdiSpec, sr: StorageRepository, k: nat, count: nat, fails: (nat, nat) -> bool)
    ensures var (here, count', error) := Pass(vmName, v, sr, k, count, fails);
            && DevicesAbove(here, count) && DevicesIncreasing(here)
            && (forall i :: 0 <= i < |here| && here[i].AttachVbd? ==> here[i].userdevice <= count')
  {
  }

  lemma {:induction false} RunDevicesIncrease(vmName: string, entries: seq<string>, k: nat, count: nat, storage: Storage, fails: (nat, nat) -> bool)
    ensures DevicesAbove(Run(vmName, entries, k, count, storage, fails).effects, count)
    ensures DevicesIncreasing(Run(vmName, entries, k, count, storage, fails).effects)
    decreases |entries| - k
  {
    if k < |entries| {
      var (here, count', error) := Step(vmName, entries[k], k, count, storage, fails);
      match Prepare(entries[k], storage)
      case Err(_) =>
      case Ok((v, sr)) =>
        PassDeviceRange(vmName, v, sr, k, count, fails);
        if error.None? {
          RunDevicesIncrease(vmName, entries, k + 1, count', storage, fails);
          var rest := Run(vmName, entries, k + 1, count', storage, fails).effects;
          var effs := here + rest;
          assert forall i :: |here| <= i < |effs| ==> effs[i] == rest[i - |here|];
        }
    }
  }

  /** Every call in `effs` concerns a VDI whose number is above `count`. */
  ghost predicate NamesAbove(vmName: string, effs: seq<Effect>, count: nat) {
    forall i :: 0 <= i < |effs| ==> NamedAbove(vmName, NameOf(effs[i]), count)
  }

  lemma {:induction false} RunNames(vmName: string, entries: seq<string>, k: nat, count: nat, storage: Storage, fails: (nat, nat) -> bool)
    ensures NamesAbove(vmName, Run(vmName, entries, k, count, storage, fails).effects, count)
    decreases |entries| - k
  {
    if k < |entries| {
      var (here, count', error) := Step(vmName, entries[k], k, count, storage, fails);
      match Prepare(entries[k], storage)
      case Err(_) =>
      case Ok((v, sr)) =>
        var name := VdiName(vmName, count + 1);
        assert forall i :: 0 <= i < |here| ==> NameOf(here[i]) == name;
        assert NamedAbove(vmName, name, count);
        if error.None? {
          RunNames(vmName, entries, k + 1, count', storage, fails);
          var rest := Run(vmName, entries, k + 1, count', storage, fails).effects;
          var effs := here + rest;
          forall i | |here| <= i < |effs| ensures NamedAbove(vmName, NameOf(effs[i]), count) {
            assert effs[i] == rest[i - |here|];
            var c: nat :| c > count' && NameOf(effs[i]) == VdiName(vmName, c);
          }
        }
    }
  }

  /** A pass tries its own VDI at most twice and no other VDI at all. */
  lemma PassAttempts(vmName: string, v: VdiSpec, sr: StorageRepository, k: nat, count: nat, fails: (nat, nat) -> bool, name: string)
    ensures var (here, _, _) := Pass(vmName, v, sr, k, count, fails);
            Attempts(here, name) <= if name == VdiName(vmName, count + 1) then 2 else 0
  {
    var (here, _, _) := Pass(vmName, v, sr, k, count, fails);
    assert here[..0] == [];
    CountPrefix(here, 0, AttachOf(name));
    CountPrefix(here, 1, AttachOf(name));
    if |here| > 2 {
      CountPrefix(here, 2, AttachOf(name));
    }
    if |here| > 3 {
      CountPrefix(here, 3, AttachOf(name));
    }
    assert here[..|here|] == here;
  }

  /** Calls that concern only VDIs numbered above `count` do not try the VDI numbered `c <= count`. */
  lemma AttemptsOfLowerName(vmName: string, effs: seq<Effect>, count: nat, c: nat)
    requires NamesAbove(vmName, effs, count) && c <= count
    ensures Attempts(effs, VdiName(vmName, c)) == 0
  {
    var name := VdiName(vmName, c);
    forall i | 0 <= i < |effs| ensures !AttachOf(name)(effs[i]) {
      assert NamedAbove(vmName, NameOf(effs[i]), count);
      var c': nat :| c' > count && NameOf(effs[i]) == VdiName(vmName, c');
      if effs[i].AttachVbd? && effs[i].vdi == name {
        VdiNameInjective(vmName, c, c');
      }
    }
    CountNone(effs, AttachOf(name));
  }

  /** No VDI is tried more than twice. */
  lemma {:induction false} RunAttempts(vmName: string, entries: seq<string>, k: nat, count: nat, storage: Storage, fails: (nat, nat) -> bool)
    ensures forall name :: Attempts(Run(vmName, entries, k, count, storage, fails).effects, name) <= 2
    decreases |entries| - k
  {
    if k < |entries| {
      var (here, count', error) := Step(vmName, entries[k], k, count, storage, fails);
      match Prepare(entries[k], storage)
      case Err(_) =>
        forall name ensures Attempts([], name) <= 2 { }
      case Ok((v, sr)) =>
        var own := VdiName(vmName, count + 1);
        if error.None? {
          RunAttempts(vmName, entries, k + 1, count', storage, fails);
          RunNames(vmName, entries, k + 1, count', storage, fails);
          var rest := Run(vmName, entries, k + 1, count', storage, fails).effects;
          PassDeviceRange(vmName, v, sr, k, count, fails);
          AttemptsOfLowerName(vmName, rest, count', count + 1);
          forall name ensures Attempts(here + rest, name) <= 2 {
            CountAppend(here, rest, AttachOf(name));
            PassAttempts(vmName, v, sr, k, count, fails, name);
            if name != own {
              assert Attempts(rest, name) <= 2;
            }
          }
        } else {
          forall name ensures Attempts(here, name) <= 2 {
            PassAttempts(vmName, v, sr, k, count, fails, name);
          }
        }
    }
  }

  /**
   * A VDI is destroyed only as the very last call, right after two
   * refused attach attempts for it on consecutive devices.
   */
  predicate DestroyOnlyAfterTwoRefusals(effs: seq<Effect>) {
    forall i :: 0 <= i < |effs| && effs[i].DestroyVdi? ==>
      && i == |effs| - 1 && i >= 2
      && effs[i - 2].AttachVbd? && effs[i - 2].vdi == effs[i].vdi && !effs[i - 2].attached
      && effs[i - 1] == AttachVbd(effs[i].vdi, effs[i - 2].userdevice + 1, false)
  }

  /** The run raises the attach error exactly when it ends by destroying a VDI, and the error names that VDI. */
  predicate RaisesAfterDestroy(o: Outcome) {
    && ((o.error.Some? && o.error.value.VbdAttachFailed?) <==> (|o.effects| > 0 && o.effects[|o.effects| - 1].DestroyVdi?))
    && (o.error.Some? && o.error.value.VbdAttachFailed? ==> o.error.value.vdi == o.effects[|o.effects| - 1].vdi)
  }

  /** A pass that raises ends with the two refusals and the destroy; one that does not, destroys nothing. */
  lemma PassDestroy(vmName: string, v: VdiSpec, sr: StorageRepository, k: nat, count: nat, fails: (nat, nat) -> bool)
    ensures var (here, _, error) := Pass(vmName, v, sr, k, count, fails);
            && DestroyOnlyAfterTwoRefusals(here)
            && RaisesAfterDestroy(Outcome(here, error))
            && |here| > 0
            && (error.None? ==> forall i :: 0 <= i < |here| ==> !here[i].DestroyVdi?)
  {
  }

  /** Calls without a destroy in front of a log keep the destroy where it was: last, after two refusals. */
  lemma DestroyAppend(here: seq<Effect>, rest: seq<Effect>, error: Option<Error>)
    requires |here| > 0 && forall i :: 0 <= i < |here| ==> !here[i].DestroyVdi?
    requires DestroyOnlyAfterTwoRefusals(rest) && RaisesAfterDestroy(Outcome(rest, error))
    ensures DestroyOnlyAfterTwoRefusals(here + rest) && RaisesAfterDestroy(Outcome(here + rest, error))
  {
    var effs := here + rest;
    forall i | 0 <= i < |effs| && effs[i].DestroyVdi?
      ensures && i == |effs| - 1 && i >= 2
              && effs[i - 2].AttachVbd? && effs[i - 2].vdi == effs[i].vdi && !effs[i - 2].attached
              && effs[i - 1] == AttachVbd(effs[i].vdi, effs[i - 2].userdevice + 1, false)
    {
      var j := i - |here|;
      assert j >= 0 && effs[i] == rest[j];
      assert effs[i - 1] == rest[j - 1] && effs[i - 2] == rest[j - 2];
    }
    if |rest| > 0 {
      assert effs[|effs| - 1] == rest[|rest| - 1];
    }
  }

  lemma {:induction false} RunDestroy(vmName: string, entries: seq<string>, k: nat, count: nat, storage: Storage, fails: (nat, nat) -> bool)
    ensures DestroyOnlyAfterTwoRefusals(Run(vmName, entries, k, count, storage, fails).effects)
    ensures RaisesAfterDestroy(Run(vmName, entries, k, count, storage, fails))
    decreases |entries| - k
  {
    if k < |entries| {
      var (here, count', error) := Step(vmName, entries[k], k, count, storage, fails);
      match Prepare(entries[k], storage)
      case Err(_) =>
      case Ok((v, sr)) =>
        PassDestroy(vmName, v, sr, k, count, fails);
        if error.None? {
          RunDestroy(vmName, entries, k + 1, count', storage, fails);
          var rest := Run(vmName, entries, k + 1, count', storage, fails);
          DestroyAppend(here, rest.effects, rest.error);
        }
    }
  }

  /** Entry `j` goes through: it parses, its SR exists, and one of its two attach attempts succeeds. */
  predicate Proceeds(entries: seq<string>, j: nat, storage: Storage, fails: (nat, nat) -> bool)
    requires j < |entries|
  {
    Prepare(entries[j], storage).Ok? && !(fails(j, 0) && fails(j, 1))
  }

  /** A pass creates one VDI and attaches it, unless both attempts are refused. */
  lemma PassCounts(vmName: string, v: VdiSpec, sr: StorageRepository, k: nat, count: nat, fails: (nat, nat) -> bool)
    ensures var (here, _, error) := Pass(vmName, v, sr, k, count, fails);
            && Creates(here) == 1
            && Count(here, IsSuccessfulAttach) == (if error.None? then 1 else 0)
            && (error.None? <==> !(fails(k, 0) && fails(k, 1)))
            && (error.Some? ==> error.value == VbdAttachFailed(VdiName(vmName, count + 1)))
  {
    var (here, _, _) := Pass(vmName, v, sr, k, count, fails);
    assert here[..0] == [];
    CountPrefix(here, 0, IsCreate);
    CountPrefix(here, 0, IsSuccessfulAttach);
    CountPrefix(here, 1, IsCreate);
    CountPrefix(here, 1, IsSuccessfulAttach);
    if |here| > 2 {
      CountPrefix(here, 2, IsCreate);
      CountPrefix(here, 2, IsSuccessfulAttach);
    }
    if |here| > 3 {
      CountPrefix(here, 3, IsCreate);
      CountPrefix(here, 3, IsSuccessfulAttach);
    }
    assert here[..|here|] == here;
  }

  /** The run finishes without error exactly when every entry goes through. */
  lemma {:induction false} RunSucceeds(vmName: string, entries: seq<string>, k: nat, count: nat, storage: Storage, fails: (nat, nat) -> bool)
    ensures Run(vmName, entries, k, count, storage, fails).error.None?
        <==> forall j :: k <= j < |entries| ==> Proceeds(entries, j, storage, fails)
    decreases |entries| - k
  {
    if k < |entries| {
      var (here, count', error) := Step(vmName, entries[k], k, count, storage, fails);
      match Prepare(entries[k], storage)
      case Err(e) =>
        assert !Proceeds(entries, k, storage, fails);
      case Ok((v, sr)) =>
        PassCounts(vmName, v, sr, k, count, fails);
        assert error.None? <==> Proceeds(entries, k, storage, fails);
        if error.None? {
          RunSucceeds(vmName, entries, k + 1, count', storage, fails);
        }
    }
  }

  /** A run that finishes without error has created and attached one VDI per entry. */
  lemma {:induction false} RunCreatesAll(vmName: string, entries: seq<string>, k: nat, count: nat, storage: Storage, fails: (nat, nat) -> bool)
    requires k <= |entries|
    ensures var o := Run(vmName, entries, k, count, storage, fails);
            o.error.None? ==> Creates(o.effects) == |entries| - k && Count(o.effects, IsSuccessfulAttach) == |entries| - k
    decreases |entries| - k
  {
    if k < |entries| {
      var (here, count', error) := Step(vmName, entries[k], k, count, storage, fails);
      match Prepare(entries[k], storage)
      case Err(e) =>
      case Ok((v, sr)) =>
        PassCounts(vmName, v, sr, k, count, fails);
        if error.None? {
          RunCreatesAll(vmName, entries, k + 1, count', storage, fails);
          var r := Run(vmName, entries, k + 1, count', storage, fails);
          CountAppend(here, r.effects, IsCreate);
          CountAppend(here, r.effects, IsSuccessfulAttach);
        }
    }
  }

  /**
   * A run that raises stops at the first entry that does not go through:
   * with the parse or SR error before creating that entry's VDI, or with
   * the attach error after creating it.
   */
  lemma {:induction false} RunStops(vmName: string, entries: seq<string>, k: nat, count: nat, storage: Storage, fails: (nat, nat) -> bool)
    requires k <= |entries|
    ensures var o := Run(vmName, entries, k, count, storage, fails);
            o.error.Some? ==> exists j :: FirstProblem(vmName, entries, k, j, storage, fails, o)
    decreases |entries| - k
  {
    var o := Run(vmName, entries, k, count, storage, fails);
    if k < |entries| {
      var (here, count', error) := Step(vmName, entries[k], k, count, storage, fails);
      match Prepare(entries[k], storage)
      case Err(e) =>
        assert FirstProblem(vmName, entries, k, k, storage, fails, o);
      case Ok((v, sr)) =>
        PassCounts(vmName, v, sr, k, count, fails);
        if error.None? {
          RunStops(vmName, entries, k + 1, count', storage, fails);
          var r := Run(vmName, entries, k + 1, count', storage, fails);
          CountAppend(here, r.effects, IsCreate);
          if o.error.Some? {
            var j :| FirstProblem(vmName, entries, k + 1, j, storage, fails, r);
            assert FirstProblem(vmName, entries, k, j, storage, fails, o);
          }
        } else {
          assert FirstProblem(vmName, entries, k, k, storage, fails, o);
        }
    }
  }

  /**
   * Entry `j` is the first from `k` on that does not go through, and the
   * outcome `o` raised its error: the parse or SR error with no VDI created
   * for it, or the attach error after creating it.
   */
  predicate FirstProblem(vmName: string, entries: seq<string>, k: nat, j: nat, storage: Storage, fails: (nat, nat) -> bool, o: Outcome) {
    && k <= j < |entries|
    && (forall l :: k <= l < j ==> Proceeds(entries, l, storage, fails))
    && !Proceeds(entries, j, storage, fails)
    && (Prepare(entries[j], storage).Err? ==> o.error == Some(Prepare(entries[j], storage).error) && Creates(o.effects) == j - k)
    && (Prepare(entries[j], storage).Ok? ==> o.error.Some? && o.error.value.VbdAttachFailed? && Creates(o.effects) == j - k + 1)
  }

  // ---------------------------------------------------------------------
  // The properties of `create_extra_vdis` as a whole
  // ---------------------------------------------------------------------

  /** Each VDI's attach attempts use a device number at least its position among the VDIs created (1 for the first). */
  predicate DevicesNotBelowOrdinal(effs: seq<Effect>) {
    forall i :: 0 <= i < |effs| && effs[i].AttachVbd? ==> effs[i].userdevice >= Creates(effs[..i + 1])
  }

  /**
   * Device numbering: the counter starts at 0 and goes up by one per VDI
   * and per refused attempt, so devices never repeat, only grow, and the
   * n-th VDI lands on device n or later.
   */
  lemma ExtraVdiDevices(vmName: string, option: Option<string>, storage: Storage, fails: (nat, nat) -> bool)
    ensures DevicesFollowCounter(ExtraVdisOutcome(vmName, option, storage, fails).effects, 0)
    ensures DevicesIncreasing(ExtraVdisOutcome(vmName, option, storage, fails).effects)
    ensures DevicesNotBelowOrdinal(ExtraVdisOutcome(vmName, option, storage, fails).effects)
  {
    var effs := ExtraVdisOutcome(vmName, option, storage, fails).effects;
    if option.Some? {
      RunDevices(vmName, Entries(option.value), 0, 0, storage, fails);
      RunDevicesIncrease(vmName, Entries(option.value), 0, 0, storage, fails);
    }
    forall i | 0 <= i < |effs| && effs[i].AttachVbd? ensures effs[i].userdevice >= Creates(effs[..i + 1]) {
      assert effs[i].userdevice == Creates(effs[..i + 1]) + Failures(effs[..i]);
    }
  }

  /** No VDI is attached more than twice. */
  lemma ExtraVdiAttempts(vmName: string, option: Option<string>, storage: Storage, fails: (nat, nat) -> bool)
    ensures forall name :: Attempts(ExtraVdisOutcome(vmName, option, storage, fails).effects, name) <= 2
  {
    if option.Some? {
      RunAttempts(vmName, Entries(option.value), 0, 0, storage, fails);
    } else {
      forall name ensures Attempts([], name) <= 2 { }
    }
  }

  /** A VDI is destroyed only after both its attempts were refused, as the last call, and then the attach error is raised. */
  lemma ExtraVdiDestroy(vmName: string, option: Option<string>, storage: Storage, fails: (nat, nat) -> bool)
    ensures DestroyOnlyAfterTwoRefusals(ExtraVdisOutcome(vmName, option, storage, fails).effects)
    ensures RaisesAfterDestroy(ExtraVdisOutcome(vmName, option, storage, fails))
  {
    if option.Some? {
      RunDestroy(vmName, Entries(option.value), 0, 0, storage, fails);
    }
  }

  /**
   * With the option set, the command finishes exactly when every entry
   * goes through, having created and attached one VDI per entry; else it
   * stops at the first entry that does not.
   */
  lemma ExtraVdiCompletion(vmName: string, option: string, storage: Storage, fails: (nat, nat) -> bool)
    ensures var entries := Entries(option);
            var o := ExtraVdisOutcome(vmName, Some(option), storage, fails);
            && (o.error.None? <==> forall j :: 0 <= j < |entries| ==> Proceeds(entries, j, storage, fails))
            && (o.error.None? ==> Creates(o.effects) == |entries| && Count(o.effects, IsSuccessfulAttach) == |entries|)
            && (o.error.Some? ==> exists j :: FirstProblem(vmName, entries, 0, j, storage, fails, o))
  {
    var entries := Entries(option);
    RunSucceeds(vmName, entries, 0, 0, storage, fails);
    RunCreatesAll(vmName, entries, 0, 0, storage, fails);
    RunStops(vmName, entries, 0, 0, storage, fails);
  }

  /**
   * Two bare sizes whose first attach is refused once: the first VDI ends
   * on device 2, and the second VDI is named and attached after the bumped
   * counter, as number 3.
   */
  lemma BumpedDeviceExample(sr: StorageRepository)
    ensures var fails := (k: nat, attempt: nat) => k == 0 && attempt == 0;
            var o := Run("vm", ["10", "20"], 0, 0, Storage(Some(sr), []), fails);
            o == Outcome([CreateVdi(VdiName("vm", 1), sr, 10 * MiB),
                          AttachVbd(VdiName("vm", 1), 1, false),
                          AttachVbd(VdiName("vm", 1), 2, true),
                          CreateVdi(VdiName("vm", 3), sr, 20 * MiB),
                          AttachVbd(VdiName("vm", 3), 3, true)], None)
  {
    var fails := (k: nat, attempt: nat) => k == 0 && attempt == 0;
    var storage := Storage(Some(sr), []);
    assert DigitsValue("10") == 10 by { assert "10"[..1] == "1"; }
    assert DigitsValue("20") == 20 by { assert "20"[..1] == "2"; }
    assert Prepare("10", storage) == Ok((VdiSpec(None, 10), sr));
    assert Prepare("20", storage) == Ok((VdiSpec(None, 20), sr));
    assert Run("vm", ["10", "20"], 2, 3, storage, fails) == Outcome([], None);
    var second := [CreateVdi(VdiName("vm", 3), sr, 20 * MiB), AttachVbd(VdiName("vm", 3), 3, true)];
    assert Run("vm", ["10", "20"], 1, 2, storage, fails) == Outcome(second + [], None);
  }

  /**
   * `create_extra_vdis`: the loop over the entries with the counter, the
   * SR lookup, the VDI creation and the two-attempt attach.
   */
  method CreateExtraVdis(vmName: string, option: Option<string>, storage: Storage, fails: (nat, nat) -> bool)
    returns (effects: seq<Effect>, error: Option<Error>)
    ensures Outcome(effects, error) == ExtraVdisOutcome(vmName, option, storage, fails)
  {
    if option.None? {
      return [], None;
    }
    effects, error := CreateEntries(vmName, Entries(option.value), storage, fails);
  }

  /** The loop of `create_extra_vdis` over the split entries. */
  method CreateEntries(vmName: string, vdis: seq<string>, storage: Storage, fails: (nat, nat) -> bool)
    returns (effects: seq<Effect>, error: Option<Error>)
    ensures Outcome(effects, error) == Run(vmName, vdis, 0, 0, storage, fails)
  {
    effects, error := [], None;
    var count := 0;
    var i := 0;
    ghost var whole := Run(vmName, vdis, 0, 0, storage, fails);
    assert whole == Then([], whole);
    while i < |vdis|
      invariant 0 <= i <= |vdis|
      invariant whole == Then(effects, Run(vmName, vdis, i, count, storage, fails))
      decreases |vdis| - i
    {
      var here, count', raised := CreateEntry(vmName, vdis[i], i, count, storage, fails);
      RunStep(vmName, vdis, i, count, storage, fails);
      ThenAssociates(effects, here, Run(vmName, vdis, i + 1, count', storage, fails));
      effects, count := effects + here, count';
      if raised.Some? {
        return effects, raised;
      }
      i := i + 1;
    }
    assert effects + [] == effects;
  }

  /**
   * One turn of the `vdis.each` loop: bump the counter, parse the entry,
   * find its SR, create the VDI and attach it.
   */
  method CreateEntry(vmName: string, entry: string, k: nat, count: nat, storage: Storage, fails: (nat, nat) -> bool)
    returns (effects: seq<Effect>, count': nat, error: Option<Error>)
    ensures (effects, count', error) == Step(vmName, entry, k, count, storage, fails)
  {
    count' := count + 1;
    var parsed := ParseEntry(entry);
    if parsed.Err? {
      return [], count', Some(parsed.error);
    }
    var sr := VdiRepository(storage, parsed.value);
    if sr.Err? {
      return [], count', Some(sr.error);
    }
    assert Prepare(entry, storage) == Ok((parsed.value, sr.value));
    var name := VdiName(vmName, count');
    var create := CreateVdi(name, sr.value, parsed.value.sizeMiB * 1024 * 1024);
    var attach, attached;
    attach, count', attached := AttachVbdWithRetry(name, count', k, fails);
    effects := [create] + attach;
    error := if attached then None else Some(VbdAttachFailed(name));
  }

  /**
   * The `2.times` block: attach on device `count`; after a first failure
   * bump the counter and try the next device; after a second failure
   * destroy the VDI (ignoring any error from that) and give up.
   */
  method AttachVbdWithRetry(name: string, count: nat, k: nat, fails: (nat, nat) -> bool)
    returns (effects: seq<Effect>, count': nat, attached: bool)
    ensures (effects, count', attached) == AttachWithRetry(name, count, k, fails)
  {
    effects, count', attached := [], count, false;
    var retries := 0;
    while retries < 2 && !attached
      invariant retries <= 2
      invariant retries == 0 ==> count' == count && effects == [] && !attached
      invariant retries == 1 && attached ==> !fails(k, 0) && count' == count && effects == [AttachVbd(name, count, true)]
      invariant retries == 1 && !attached ==> fails(k, 0) && count' == count + 1 && effects == [AttachVbd(name, count, false)]
      invariant retries == 2 ==> fails(k, 0) && count' == count + 1 && attached == !fails(k, 1)
                                 && effects == [AttachVbd(name, count, false), AttachVbd(name, count + 1, attached)]
                                               + (if attached then [] else [DestroyVdi(name)])
    {
      attached := !fails(k, retries);
      effects := effects + [AttachVbd(name, count', attached)];
      if !attached {
        if retries > 0 {
          effects := effects + [DestroyVdi(name)];
        } else {
          count' := count' + 1;
        }
      }
      retries := retries + 1;
    }
    if retries == 2 {
      if attached {
        assert effects == [AttachVbd(name, count, false), AttachVbd(name, count + 1, true)];
      } else {
        assert effects == [AttachVbd(name, count, false), AttachVbd(name, count + 1, false), DestroyVdi(name)];
      }
    }
  }
}
