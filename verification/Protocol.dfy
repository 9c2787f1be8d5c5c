/** Runs of the admission protocol: checks on any list, commits, updates and deletes, interleaved. */
module Protocol {
  import opened Types
  import opened Admission

  type Id = (string, string)

  /** The policies stored, by namespace and name, and the ones accepted but not yet written. */
  datatype Proto = Proto(store: map<Id, PolicyObj>, accepted: set<PolicyObj>)

  datatype Step =
    | Check(policy: PolicyObj, reader: Reader)   // admission on a list of any age
    | Commit(policy: PolicyObj)                  // the API server writes an accepted object, new or updated
    | Delete(id: Id)
    | CheckAndCommit(policy: PolicyObj)          // both at once, on the live list

  function IdOf(p: PolicyObj): Id {
    (p.namespace, p.name)
  }

  const EMPTY := Proto(map[], {})

  /** No stored policy of the namespace, other than an older version of p, selects the service of p. */
  ghost predicate LiveListAccepts(s: Proto, p: PolicyObj, cfg: Config) {
    forall id | id in s.store && id.0 == p.namespace :: !SelectsSameService(s.store[id], p, cfg)
  }

  ghost predicate Enabled(s: Proto, step: Step, cfg: Config, naming: Naming) {
    match step
    case Check(p, reader) => Accepts(p, cfg, naming, reader)
    case Commit(p) => p in s.accepted
    case Delete(id) => true
    case CheckAndCommit(p) => WellFormed(p, cfg, naming) && LiveListAccepts(s, p, cfg)
  }

  function Next(s: Proto, step: Step): Proto {
    match step
    case Check(p, _) => s.(accepted := s.accepted + {p})
    case Commit(p) => Proto(s.store[IdOf(p) := p], s.accepted - {p})
    case Delete(id) => s.(store := s.store - {id})
    case CheckAndCommit(p) => s.(store := s.store[IdOf(p) := p])
  }

  ghost predicate IsRun(states: seq<Proto>, steps: seq<Step>, cfg: Config, naming: Naming) {
    && |states| == |steps| + 1 && states[0] == EMPTY
    && forall i | 0 <= i < |steps| :: Enabled(states[i], steps[i], cfg, naming) && states[i + 1] == Next(states[i], steps[i])
  }

  /** At most one stored policy of a namespace selects the value. */
  ghost predicate Unambiguous(s: Proto, ns: string, cfg: Config, value: string) {
    forall a, b | a in s.store && b in s.store && a.0 == ns && b.0 == ns &&
                  Selects(s.store[a], cfg, value) && Selects(s.store[b], cfg, value) :: a == b
  }

  /** Everything stored or about to be stored passed validation and sits under its own identity. */
  ghost predicate Vetted(s: Proto, cfg: Config, naming: Naming) {
    && (forall id | id in s.store :: IdOf(s.store[id]) == id && WellFormed(s.store[id], cfg, naming))
    && (forall p | p in s.accepted :: WellFormed(p, cfg, naming))
  }

  lemma RunsAreVetted(states: seq<Proto>, steps: seq<Step>, cfg: Config, naming: Naming)
    requires IsRun(states, steps, cfg, naming)
    ensures forall i | 0 <= i < |states| :: Vetted(states[i], cfg, naming)
  {
    for k := 0 to |steps|
      invariant forall i | 0 <= i <= k :: Vetted(states[i], cfg, naming)
    {
      VettedStep(states[k], steps[k], cfg, naming);
    }
  }

  lemma VettedStep(s: Proto, step: Step, cfg: Config, naming: Naming)
    requires Vetted(s, cfg, naming) && Enabled(s, step, cfg, naming)
    ensures Vetted(Next(s, step), cfg, naming)
  {
  }

  /** Two well-formed policies of a namespace that select one non-empty value carry the same name. */
  lemma NameDeterminesService(a: PolicyObj, b: PolicyObj, cfg: Config, naming: Naming, value: string)
    requires WellFormed(a, cfg, naming) && WellFormed(b, cfg, naming) && a.namespace == b.namespace
    requires Selects(a, cfg, value) && Selects(b, cfg, value) && value != ""
    ensures IdOf(a) == IdOf(b)
  {
  }

  /**
   Whatever lists the checks see and however checks and commits interleave, a service with a
   non-empty value never has two policies in its namespace, for every deterministic naming.
   */
  lemma OnePolicyPerNamedService(states: seq<Proto>, steps: seq<Step>, cfg: Config, naming: Naming,
                                 ns: string, value: string)
    requires IsRun(states, steps, cfg, naming) && value != ""
    ensures forall i | 0 <= i < |states| :: Unambiguous(states[i], ns, cfg, value)
  {
    RunsAreVetted(states, steps, cfg, naming);
    forall i, a, b | 0 <= i < |states| && a in states[i].store && b in states[i].store && a.0 == ns && b.0 == ns &&
                     Selects(states[i].store[a], cfg, value) && Selects(states[i].store[b], cfg, value)
      ensures a == b
    {
      NameDeterminesService(states[i].store[a], states[i].store[b], cfg, naming, value);
    }
  }

  /** If check and commit are one step on the live list, every value is safe, the empty one included. */
  lemma OnePolicyWhenAtomic(states: seq<Proto>, steps: seq<Step>, cfg: Config, naming: Naming,
                            ns: string, value: string)
    requires IsRun(states, steps, cfg, naming)
    requires forall i | 0 <= i < |steps| :: steps[i].CheckAndCommit? || steps[i].Delete?
    ensures forall i | 0 <= i < |states| :: Unambiguous(states[i], ns, cfg, value)
  {
    RunsAreVetted(states, steps, cfg, naming);
    for k := 0 to |steps|
      invariant forall i | 0 <= i <= k :: Unambiguous(states[i], ns, cfg, value)
    {
      AtomicStep(states[k], steps[k], cfg, naming, ns, value);
    }
  }

  lemma AtomicStep(s: Proto, step: Step, cfg: Config, naming: Naming, ns: string, value: string)
    requires Vetted(s, cfg, naming) && Unambiguous(s, ns, cfg, value) && Enabled(s, step, cfg, naming)
    requires step.CheckAndCommit? || step.Delete?
    ensures Unambiguous(Next(s, step), ns, cfg, value)
  {
  }

  /** Two checks before either commit: the empty value, whose name is not bound, ends up ambiguous. */
  lemma EmptyValueRace(cfg: Config, naming: Naming, ns: string) returns (states: seq<Proto>, steps: seq<Step>)
    requires cfg.managedScheduler != ""
    ensures IsRun(states, steps, cfg, naming) && !Unambiguous(states[|steps|], ns, cfg, "")
  {
    var sel := Selector(map[cfg.labelKey := ""], []);
    var p := PolicyObj(ns, "p", cfg.managedScheduler, sel, 1, 1);
    var p' := PolicyObj(ns, "q", cfg.managedScheduler, sel, 1, 1);
    assert SingleKey(sel, cfg.labelKey) && |sel.matchLabels| == 1;
    var s1 := Next(EMPTY, Check(p, Items([])));
    var s2 := Next(s1, Check(p', Items([])));
    var s3 := Next(s2, Commit(p));
    var s4 := Next(s3, Commit(p'));
    states, steps := [EMPTY, s1, s2, s3, s4], [Check(p, Items([])), Check(p', Items([])), Commit(p), Commit(p')];
    assert p' in s3.accepted;
    assert s4.store[(ns, "p")] == p && s4.store[(ns, "q")] == p';
    assert Selects(p, cfg, "") && Selects(p', cfg, "");
  }

  /** Exactly the non-empty values are safe under every interleaving. */
  lemma SafeValuesExact(cfg: Config, naming: Naming, ns: string, value: string)
    requires cfg.managedScheduler != ""
    ensures (forall states, steps | IsRun(states, steps, cfg, naming) ::
               Unambiguous(states[|steps|], ns, cfg, value)) <==> value != ""
  {
    if value == "" {
      var states, steps := EmptyValueRace(cfg, naming, ns);
    } else {
      forall states, steps | IsRun(states, steps, cfg, naming)
        ensures Unambiguous(states[|steps|], ns, cfg, value)
      {
        OnePolicyPerNamedService(states, steps, cfg, naming, ns, value);
      }
    }
  }

  /** The namespace's policies, each stored object once, in any order. */
  ghost predicate ListsNamespace(items: seq<PolicyObj>, s: Proto, ns: string) {
    && (forall i | 0 <= i < |items| ::
          IdOf(items[i]) in s.store && s.store[IdOf(items[i])] == items[i] && items[i].namespace == ns)
    && (forall i, j | 0 <= i < j < |items| :: IdOf(items[i]) != IdOf(items[j]))
  }

  /** Over such a listing no two entries select the service, so resolution cannot report ambiguity. */
  lemma ListingNeverAmbiguous(items: seq<PolicyObj>, s: Proto, ns: string, cfg: Config, value: string)
    requires ListsNamespace(items, s, ns) && Unambiguous(s, ns, cfg, value)
    ensures !exists i, j :: 0 <= i < j < |items| && Selects(items[i], cfg, value) && Selects(items[j], cfg, value)
  {
  }
}
