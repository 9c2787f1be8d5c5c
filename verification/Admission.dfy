/** Policy admission: validation, overlap check, and the check-then-commit protocol behind resolvePolicy. */
module Admission {
  import opened Types

  datatype Selector = Selector(matchLabels: map<string, string>, matchExpressions: seq<string>)

  datatype PolicyObj = PolicyObj(
    namespace: string, name: string, schedulerName: string, selector: Selector, maxSkew: int, maxPodsPerNode: int)

  datatype Config = Config(managedScheduler: string, labelKey: string)

  /** Deterministic object name of (namespace, scheduler, label key, label value); any function will do. */
  type Naming = (string, string, string, string) -> string

  datatype FieldError =
    | ExpressionsForbidden | WrongLabelKey | LabelsRequired | TooManyLabels
    | SchedulerRequired | SchedulerNotManaged | MaxSkewTooSmall | MaxPodsTooSmall
    | NameMismatch | ListFailed | Overlap

  /** Exactly the service label and nothing else. */
  predicate SingleKey(sel: Selector, labelKey: string) {
    sel.matchExpressions == [] && sel.matchLabels.Keys == {labelKey}
  }

  function ValueOf(sel: Selector, labelKey: string): string {
    if labelKey in sel.matchLabels then sel.matchLabels[labelKey] else ""
  }

  /** The static rules a stored policy obeys; the name is bound to the identity unless the value is empty. */
  predicate WellFormed(p: PolicyObj, cfg: Config, naming: Naming) {
    && p.schedulerName == cfg.managedScheduler != ""
    && SingleKey(p.selector, cfg.labelKey)
    && p.maxSkew >= 1 && p.maxPodsPerNode >= 1
    && (ValueOf(p.selector, cfg.labelKey) != "" ==>
          p.name == naming(p.namespace, p.schedulerName, cfg.labelKey, ValueOf(p.selector, cfg.labelKey)))
  }

  lemma OneLabel(m: map<string, string>, k: string)
    requires |m| == 1 && k in m
    ensures m.Keys == {k}
  {
    assert m.Keys - {k} == {} by {
      assert |m.Keys - {k}| == 0;
    }
  }

  method ServiceSelectorValue(sel: Selector, cfg: Config) returns (value: string, errs: seq<FieldError>)
    ensures errs == [] <==> SingleKey(sel, cfg.labelKey)
    ensures sel.matchLabels.Keys == {cfg.labelKey} ==> value == sel.matchLabels[cfg.labelKey]
    ensures sel.matchLabels.Keys != {cfg.labelKey} ==> value == ""
    ensures ExpressionsForbidden in errs <==> sel.matchExpressions != []
    ensures LabelsRequired in errs <==> sel.matchLabels == map[]
    ensures WrongLabelKey in errs <==> |sel.matchLabels| == 1 && cfg.labelKey !in sel.matchLabels
    ensures TooManyLabels in errs <==> |sel.matchLabels| > 1
    ensures forall e | e in errs :: e in {ExpressionsForbidden, LabelsRequired, WrongLabelKey, TooManyLabels}
  {
    errs := [];
    if |sel.matchExpressions| > 0 {
      errs := errs + [ExpressionsForbidden];
    }
    if |sel.matchLabels| == 1 {
      if cfg.labelKey in sel.matchLabels {
        OneLabel(sel.matchLabels, cfg.labelKey);
        return sel.matchLabels[cfg.labelKey], errs;
      }
      errs := errs + [WrongLabelKey];
    } else if |sel.matchLabels| == 0 {
      errs := errs + [LabelsRequired];
    } else {
      errs := errs + [TooManyLabels];
    }
    assert sel.matchLabels.Keys == {cfg.labelKey} ==> |sel.matchLabels.Keys| == 1;
    value := "";
  }

  /** The label value the name is checked against: empty unless the service label is the only one. */
  function NamedValue(sel: Selector, labelKey: string): string {
    if sel.matchLabels.Keys == {labelKey} then sel.matchLabels[labelKey] else ""
  }

  /** The errors that concern the selector, each under its own condition. */
  predicate SelectorErrors(sel: Selector, labelKey: string, errs: seq<FieldError>) {
    && (ExpressionsForbidden in errs <==> sel.matchExpressions != [])
    && (LabelsRequired in errs <==> sel.matchLabels == map[])
    && (WrongLabelKey in errs <==> |sel.matchLabels| == 1 && labelKey !in sel.matchLabels)
    && (TooManyLabels in errs <==> |sel.matchLabels| > 1)
  }

  /** Static validation reports nothing exactly for well-formed policies, and each rule under its own error. */
  method ValidatePolicy(p: PolicyObj, cfg: Config, naming: Naming) returns (errs: seq<FieldError>)
    ensures errs == [] <==> WellFormed(p, cfg, naming)
    ensures SchedulerRequired in errs <==> p.schedulerName == ""
    ensures SchedulerNotManaged in errs <==> p.schedulerName != "" && p.schedulerName != cfg.managedScheduler
    ensures MaxSkewTooSmall in errs <==> p.maxSkew < 1
    ensures MaxPodsTooSmall in errs <==> p.maxPodsPerNode < 1
    ensures NameMismatch in errs <==>
            var value := NamedValue(p.selector, cfg.labelKey);
            p.schedulerName != "" && value != "" &&
            p.name != naming(p.namespace, p.schedulerName, cfg.labelKey, value)
    ensures SelectorErrors(p.selector, cfg.labelKey, errs)
  {
    errs := [];
    if p.schedulerName == "" {
      errs := errs + [SchedulerRequired];
    } else if p.schedulerName != cfg.managedScheduler {
      errs := errs + [SchedulerNotManaged];
    }
    var value, selectorErrs := ServiceSelectorValue(p.selector, cfg);
    errs := errs + selectorErrs;
    assert SelectorErrors(p.selector, cfg.labelKey, errs);
    assert SchedulerRequired in errs <==> p.schedulerName == "";
    assert SchedulerNotManaged in errs <==> p.schedulerName != "" && p.schedulerName != cfg.managedScheduler;
    if p.maxSkew < 1 {
      errs := errs + [MaxSkewTooSmall];
    }
    if p.maxPodsPerNode < 1 {
      errs := errs + [MaxPodsTooSmall];
    }
    assert MaxSkewTooSmall in errs <==> p.maxSkew < 1;
    assert MaxPodsTooSmall in errs <==> p.maxPodsPerNode < 1;
    if p.schedulerName != "" && value != "" {
      if p.name != naming(p.namespace, p.schedulerName, cfg.labelKey, value) {
        errs := errs + [NameMismatch];
      }
    }
  }

  /** A different object that selects the same service. */
  predicate SelectsSameService(existing: PolicyObj, incoming: PolicyObj, cfg: Config) {
    && existing.name != incoming.name
    && existing.schedulerName == incoming.schedulerName
    && |existing.selector.matchLabels| == 1 && existing.selector.matchExpressions == []
    && cfg.labelKey in existing.selector.matchLabels
    && cfg.labelKey in incoming.selector.matchLabels
    && existing.selector.matchLabels[cfg.labelKey] == incoming.selector.matchLabels[cfg.labelKey]
  }

  /** What the overlap check can see: no reader configured, a failing list, or the listed policies. */
  datatype Reader = NoReader | ListFails | Items(items: seq<PolicyObj>)

  method CheckOverlap(p: PolicyObj, cfg: Config, reader: Reader) returns (errs: seq<FieldError>)
    ensures errs == [] <==>
            reader.NoReader? ||
            (reader.Items? && forall e | e in reader.items :: !SelectsSameService(e, p, cfg))
    ensures errs != [] ==> errs == if reader.ListFails? then [ListFailed] else [Overlap]
    ensures reader.Items? && (forall e | e in reader.items :: e.name == p.name) ==> errs == []
  {
    if reader.NoReader? {
      return [];
    }
    if reader.ListFails? {
      return [ListFailed];
    }
    for i := 0 to |reader.items|
      invariant forall j | 0 <= j < i :: !SelectsSameService(reader.items[j], p, cfg)
    {
      if SelectsSameService(reader.items[i], p, cfg) {
        return [Overlap];
      }
    }
    errs := [];
  }

  /** Admission accepts: usable configuration, well-formed, and nothing listed selects the same service. */
  predicate Accepts(p: PolicyObj, cfg: Config, naming: Naming, reader: Reader) {
    && WellFormed(p, cfg, naming)
    && (reader.NoReader? || (reader.Items? && forall e | e in reader.items :: !SelectsSameService(e, p, cfg)))
  }

  /** The webhook fails closed without a usable configuration and skips the list when validation fails. */
  method Validate(p: PolicyObj, cfg: Option<Config>, naming: Naming, reader: Reader) returns (accepted: bool)
    ensures accepted <==> cfg.Some? && Accepts(p, cfg.value, naming, reader)
    ensures accepted && reader.Items? ==>
              forall e | e in reader.items ::
                e.name == p.name || !Selects(e, cfg.value, ValueOf(p.selector, cfg.value.labelKey))
    ensures cfg.None? || reader.ListFails? ==> !accepted
  {
    if cfg.None? {
      return false;
    }
    var errs := ValidatePolicy(p, cfg.value, naming);
    if |errs| == 0 {
      var overlap := CheckOverlap(p, cfg.value, reader);
      errs := errs + overlap;
    }
    accepted := |errs| == 0;
    forall e | accepted && reader.Items? && e in reader.items
      ensures e.name == p.name || !Selects(e, cfg.value, ValueOf(p.selector, cfg.value.labelKey))
    {
      OverlapIsDoubleSelection(e, p, cfg.value, naming);
    }
  }

  // ---- resolution ----

  /** A policy that the plugin takes as selecting the service with this label value. */
  predicate Selects(p: PolicyObj, cfg: Config, value: string) {
    && p.schedulerName == cfg.managedScheduler
    && p.selector.matchExpressions == [] && |p.selector.matchLabels| == 1
    && cfg.labelKey in p.selector.matchLabels && p.selector.matchLabels[cfg.labelKey] == value
  }

  /** The plugin takes exactly policies of the managed scheduler whose selector is this one label. */
  lemma SelectsMeans(p: PolicyObj, cfg: Config, value: string)
    ensures Selects(p, cfg, value) <==>
            p.schedulerName == cfg.managedScheduler && p.selector == Selector(map[cfg.labelKey := value], [])
  {
    if Selects(p, cfg, value) {
      OneLabel(p.selector.matchLabels, cfg.labelKey);
    }
  }

  /**
   The webhook and the plugin agree: an existing policy overlaps with a well-formed one exactly if it is another
   object that the plugin takes for the same service. Its own stored version never overlaps.
   */
  lemma OverlapIsDoubleSelection(existing: PolicyObj, p: PolicyObj, cfg: Config, naming: Naming)
    requires WellFormed(p, cfg, naming)
    ensures SelectsSameService(existing, p, cfg) <==>
            existing.name != p.name && Selects(existing, cfg, p.selector.matchLabels[cfg.labelKey])
  {
    assert cfg.labelKey in p.selector.matchLabels.Keys;
  }

  datatype Resolution = Found(policy: PolicyObj) | NoPolicy | PolicyNotFound | Ambiguous

  /** Scan of the namespace's policies: none, one or several that select the service. */
  method ResolvePolicy(policies: seq<PolicyObj>, cfg: Config, value: string, requirePolicy: bool)
    returns (r: Resolution)
    ensures r.Ambiguous? <==>
            exists i, j :: 0 <= i < j < |policies| && Selects(policies[i], cfg, value) && Selects(policies[j], cfg, value)
    ensures r.Found? ==> r.policy in policies && Selects(r.policy, cfg, value)
    ensures r.PolicyNotFound? || r.NoPolicy? ==> forall p | p in policies :: !Selects(p, cfg, value)
    ensures r.PolicyNotFound? ==> requirePolicy
    ensures r.NoPolicy? ==> !requirePolicy
  {
    var matches: seq<PolicyObj> := [];
    ghost var at: seq<int> := [];
    for k := 0 to |policies|
      invariant |at| == |matches|
      invariant forall i | 0 <= i < |at| ::
                  0 <= at[i] < k && policies[at[i]] == matches[i] && Selects(matches[i], cfg, value)
      invariant forall i, j | 0 <= i < j < |at| :: at[i] < at[j]
      invariant forall i | 0 <= i < k && Selects(policies[i], cfg, value) :: i in at
    {
      if Selects(policies[k], cfg, value) {
        matches, at := matches + [policies[k]], at + [k];
      }
    }
    if |matches| == 0 {
      r := if requirePolicy then PolicyNotFound else NoPolicy;
    } else if |matches| > 1 {
      assert at[0] < at[1] && Selects(policies[at[0]], cfg, value) && Selects(policies[at[1]], cfg, value);
      r := Ambiguous;
    } else {
      r := Found(matches[0]);
    }
  }
}
