/** The admission webhook: which SnapshotPod a pod belongs to, the recovery images, the
    bumped round, and the JSON Patch it answers with, under sections 4.1 (add) and 4.3
    (replace) of RFC 6902. */
module Webhook {
  import opened Api
  import opened Rounds
  import opened Recovery

  // ---------- Finding the SnapshotPod ----------

  datatype Target = Target(name: string, selector: Option<map<string, string>>)

  datatype Item = Item(target: Target, autoSave: bool, spec: SpSpec, runs: seq<Entry>)

  /** A target with a name is the pod of that name; without one it is every pod whose labels
      have all the selector's values, an absent label counting as an empty one. */
  predicate Matches(t: Target, podName: string, labels: Option<map<string, string>>) {
    if t.name != "" then t.name == podName
    else t.selector.Some? && labels.Some? &&
         forall k | k in t.selector.value ::
           (if k in labels.value then labels.value[k] else "") == t.selector.value[k]
  }

  /** Index of the first match, or |items|. */
  function FirstMatch(items: seq<Item>, podName: string, labels: Option<map<string, string>>): (i: nat)
    ensures i <= |items|
    ensures i < |items| ==> Matches(items[i].target, podName, labels)
    ensures forall j | 0 <= j < i :: !Matches(items[j].target, podName, labels)
  {
    if items == [] || Matches(items[0].target, podName, labels) then 0
    else 1 + FirstMatch(items[1..], podName, labels)
  }

  /** The lookup: `i` is the first item whose target is the pod, or the length. */
  method FindItem(items: seq<Item>, podName: string, labels: Option<map<string, string>>) returns (i: nat)
    ensures i == FirstMatch(items, podName, labels)
    ensures i <= |items|
    ensures i < |items| ==> Serves(items, i, podName, labels)
    ensures i == |items| ==> forall j :: !Serves(items, j, podName, labels)
  {
    hide Matches, IsFor;
    i := 0;
    while i < |items|
      invariant 0 <= i <= |items|
      invariant forall j | 0 <= j < i :: !Matches(items[j].target, podName, labels)
    {
      var found := IsTarget(items[i].target, podName, labels);
      if found {
        break;
      }
      i := i + 1;
    }
    FirstMatchIs(items, podName, labels, i);
    forall j | 0 <= j < |items| ensures Matches(items[j].target, podName, labels) <==> IsFor(items[j].target, podName, labels) {
      MatchesExactly(items[j].target, podName, labels);
    }
  }

  /** Whether the target is the pod. */
  method IsTarget(t: Target, podName: string, labels: Option<map<string, string>>) returns (found: bool)
    ensures found == Matches(t, podName, labels)
  {
    if t.name != "" {
      return t.name == podName;
    }
    if t.selector.None? || labels.None? {
      return false;
    }
    var keys := t.selector.value.Keys;
    while keys != {}
      invariant keys <= t.selector.value.Keys
      invariant forall k | k in t.selector.value && k !in keys ::
                  (k in labels.value && labels.value[k] == t.selector.value[k])
                  || (k !in labels.value && t.selector.value[k] == "")
      decreases |keys|
    {
      var k :| k in keys;
      if (if k in labels.value then labels.value[k] else "") != t.selector.value[k] {
        return false;
      }
      keys := keys - {k};
    }
    return true;
  }

  lemma FirstMatchIs(items: seq<Item>, podName: string, labels: Option<map<string, string>>, i: nat)
    requires i <= |items| && (i < |items| ==> Matches(items[i].target, podName, labels))
    requires forall j | 0 <= j < i :: !Matches(items[j].target, podName, labels)
    ensures FirstMatch(items, podName, labels) == i
  {
  }

  /** The pod by name, or all of the selector's values among the pod's labels. */
  ghost predicate IsFor(t: Target, podName: string, labels: Option<map<string, string>>) {
    || (t.name != "" && t.name == podName)
    || (t.name == "" && t.selector.Some? && labels.Some? &&
        forall k | k in t.selector.value ::
          || (k in labels.value && labels.value[k] == t.selector.value[k])
          || (k !in labels.value && t.selector.value[k] == ""))
  }

  lemma MatchesExactly(t: Target, podName: string, labels: Option<map<string, string>>)
    ensures Matches(t, podName, labels) <==> IsFor(t, podName, labels)
  {
  }

  /** Item `i` is for the pod, and no item before it is. */
  ghost predicate Serves(items: seq<Item>, i: int, podName: string, labels: Option<map<string, string>>) {
    && 0 <= i < |items| && IsFor(items[i].target, podName, labels)
    && forall j | 0 <= j < i :: !IsFor(items[j].target, podName, labels)
  }

  /** A selector that asks for another value of one of the pod's labels never matches it. */
  lemma OtherLabelNeverServes(items: seq<Item>, i: int, podName: string, labels: map<string, string>, k: string)
    requires 0 <= i < |items| && items[i].target.name == "" && items[i].target.selector.Some?
    requires k in items[i].target.selector.value && k in labels && labels[k] != items[i].target.selector.value[k]
    ensures !Serves(items, i, podName, Some(labels)) && FirstMatch(items, podName, Some(labels)) != i
  {
    MatchesExactly(items[i].target, podName, Some(labels));
  }

  // ---------- Choosing images ----------

  datatype ImageConfig = ImageConfig(image: string, pullSecret: string)

  /** The images with their pull secret. */
  function WithSecret(images: map<string, string>, secret: string): map<string, ImageConfig> {
    map c | c in images :: ImageConfig(images[c], secret)
  }

  function Chosen(item: Item, sorted: seq<Entry>): map<string, ImageConfig> {
    if item.spec.recoveryRound > 0 then WithSecret(OfRound(item.runs, item.spec.recoveryRound), item.spec.secret)
    else if item.spec.recoveryRound == 0 then WithSecret(FirstSuccesses(sorted), item.spec.secret)
    else map[]
  }

  lemma NoSecret(secret: string)
    ensures WithSecret(map[], secret) == map[]
  {
  }

  lemma SecretPut(images: map<string, string>, secret: string, c: string, image: string)
    ensures WithSecret(images[c := image], secret) == WithSecret(images, secret)[c := ImageConfig(image, secret)]
    ensures c in WithSecret(images, secret) <==> c in images
  {
  }

  /** The branch for a round asked for by number: the last entry of the round wins. */
  method TakeRound(sp: Item) returns (out: map<string, ImageConfig>)
    ensures out == WithSecret(OfRound(sp.runs, sp.spec.recoveryRound), sp.spec.secret)
  {
    hide WithSecret;
    out := map[];
    NoSecret(sp.spec.secret);
    ghost var images: map<string, string> := map[];
    var k := 0;
    while k < |sp.runs|
      invariant 0 <= k <= |sp.runs|
      invariant images == OfRound(sp.runs[..k], sp.spec.recoveryRound)
      invariant out == WithSecret(images, sp.spec.secret)
    {
      var item := sp.runs[k];
      assert sp.runs[..k + 1][..k] == sp.runs[..k];
      SecretPut(images, sp.spec.secret, item.container, item.image);
      if item.round == sp.spec.recoveryRound {
        out := out[item.container := ImageConfig(item.image, sp.spec.secret)];
        images := images[item.container := item.image];
      }
      k := k + 1;
    }
    assert sp.runs[..k] == sp.runs;
  }

  /** The branch for the latest success: the first entry of a container wins. */
  method TakeNewest(sp: Item, sorted: seq<Entry>) returns (out: map<string, ImageConfig>)
    ensures out == WithSecret(FirstSuccesses(sorted), sp.spec.secret)
  {
    hide WithSecret;
    out := map[];
    NoSecret(sp.spec.secret);
    ghost var images: map<string, string> := map[];
    var k := 0;
    while k < |sorted|
      invariant 0 <= k <= |sorted|
      invariant images == FirstSuccesses(sorted[..k])
      invariant out == WithSecret(images, sp.spec.secret)
    {
      var item := sorted[k];
      assert sorted[..k + 1][..k] == sorted[..k];
      SecretPut(images, sp.spec.secret, item.container, item.image);
      if item.container !in out && item.result == SucceedResult {
        out := out[item.container := ImageConfig(item.image, sp.spec.secret)];
        images := images[item.container := item.image];
      }
      k := k + 1;
    }
    assert sorted[..k] == sorted;
  }

  /** `items` is None when the list fails; `sorted` is what sort.Slice makes of the runs of the
      matching item. */
  method HandlePodCreate(items: Option<seq<Item>>, podName: string, labels: Option<map<string, string>>,
                         sorted: seq<Entry>)
    returns (out: map<string, ImageConfig>, needPatch: bool)
    ensures var i := if items.None? then 0 else FirstMatch(items.value, podName, labels);
            out == if items.None? || i == |items.value| then map[] else Chosen(items.value[i], sorted)
    ensures needPatch <==> out != map[]
    ensures items.None? || (forall i :: !Serves(items.value, i, podName, labels)) ==> out == map[]
    ensures items.Some? ==> forall i | Serves(items.value, i, podName, labels) ::
              var sp := items.value[i];
              && (sp.spec.recoveryRound < 0 ==> out == map[])
              && (sp.spec.recoveryRound > 0 ==> out == WithSecret(OfRound(sp.runs, sp.spec.recoveryRound), sp.spec.secret))
              && (sp.spec.recoveryRound == 0 ==> out == WithSecret(FirstSuccesses(sorted), sp.spec.secret))
  {
    hide WithSecret, OfRound, FirstSuccesses, Matches, IsFor;
    out := map[];
    if items.None? {
      return out, false;
    }
    var i := FindItem(items.value, podName, labels);
    if i == |items.value| {
      return out, false;
    }
    var sp := items.value[i];
    if sp.spec.recoveryRound > 0 {
      out := TakeRound(sp);
    } else if sp.spec.recoveryRound == 0 {
      out := TakeNewest(sp, sorted);
    }
    needPatch := |out| > 0;
  }

  /** A deleted pod's SnapshotPod gets a new round if it saves on termination; `updated` is
      the server's reply. The caller logs the round it is given. */
  method HandlePodUpdate(items: Option<seq<Item>>, podName: string, labels: Option<map<string, string>>)
    returns (update: Option<SpSpec>, round: int32)
    ensures var i := if items.None? then 0 else FirstMatch(items.value, podName, labels);
            if items.None? || i == |items.value| || !items.value[i].autoSave then update == None && round == 0
            else update == Some(Bumped(items.value[i].spec)) && round == Inc32(items.value[i].spec.triggerRound)
    ensures items.None? || (forall i :: !Serves(items.value, i, podName, labels)) ==> update == None && round == 0
    ensures items.Some? ==> forall i | Serves(items.value, i, podName, labels) ::
              var sp := items.value[i];
              && (!sp.autoSave ==> update == None && round == 0)
              && (sp.autoSave ==>
                    && update == Some(sp.spec.(triggerRound := round))
                    && round == if sp.spec.triggerRound == MAX_INT32 then MIN_INT32 else sp.spec.triggerRound + 1)
  {
    hide Matches, IsFor;
    if items.None? {
      return None, 0;
    }
    var i := FindItem(items.value, podName, labels);
    if i == |items.value| || !items.value[i].autoSave {
      return None, 0;
    }
    var sp := items.value[i].spec;
    sp := sp.(triggerRound := Inc32(sp.triggerRound));
    return Some(sp), sp.triggerRound;
  }

  // ---------- The patch ----------

  /** A container's `image` member may be missing from the pod's JSON. */
  datatype Container = Container(name: string, image: Option<string>)

  /** `secrets` is None when the pod has no imagePullSecrets member. */
  datatype Pod = Pod(containers: seq<Container>, secrets: Option<seq<string>>)

  function SecretsOf(pod: Pod): seq<string> {
    match pod.secrets case None => [] case Some(s) => s
  }

  datatype PatchOp =
    | ReplaceImage(i: nat, image: string)   // replace /spec/containers/i/image
    | AddSecrets(secrets: seq<string>)      // add     /spec/imagePullSecrets
    | AppendSecret(secret: string)          // add     /spec/imagePullSecrets/-

  /** One operation; None when its target does not exist. */
  function Apply(pod: Pod, op: PatchOp): Option<Pod> {
    match op
    case ReplaceImage(i, image) =>
      if i < |pod.containers| && pod.containers[i].image.Some? then
        Some(pod.(containers := pod.containers[i := pod.containers[i].(image := Some(image))]))
      else None
    case AddSecrets(secrets) => Some(pod.(secrets := Some(secrets)))
    case AppendSecret(secret) =>
      if pod.secrets.Some? then Some(pod.(secrets := Some(pod.secrets.value + [secret]))) else None
  }

  /** The operations in sequence; one that fails fails the whole patch. */
  function ApplyAll(pod: Pod, ops: seq<PatchOp>): Option<Pod> {
    if ops == [] then Some(pod)
    else
      match ApplyAll(pod, ops[..|ops| - 1])
      case None => None
      case Some(p) => Apply(p, ops[|ops| - 1])
  }

  function SecretOps(pod: Pod, secret: string): seq<PatchOp> {
    if secret == "" || secret in SecretsOf(pod) then []
    else if |SecretsOf(pod)| == 0 then [AddSecrets([secret])]
    else [AppendSecret(secret)]
  }

  /** The operations for the containers with this name among the first `n`. */
  function OpsFor(pod: Pod, name: string, ic: ImageConfig, n: nat): seq<PatchOp>
    requires n <= |pod.containers|
  {
    if n == 0 then []
    else OpsFor(pod, name, ic, n - 1) +
         if pod.containers[n - 1].name == name then
           [ReplaceImage(n - 1, ic.image)] + SecretOps(pod, ic.pullSecret)
         else []
  }

  function OpsInOrder(pod: Pod, cfg: map<string, ImageConfig>, order: seq<string>): seq<PatchOp>
    requires forall c | c in order :: c in cfg
  {
    if order == [] then []
    else
      var c := order[|order| - 1];
      OpsInOrder(pod, cfg, order[..|order| - 1]) + OpsFor(pod, c, cfg[c], |pod.containers|)
  }

  /** The nested loops that build the patch, for one order of walking over the map. */
  method BuildPatch(pod: Pod, cfg: map<string, ImageConfig>, order: seq<string>) returns (ops: seq<PatchOp>)
    requires forall c | c in order :: c in cfg
    ensures ops == OpsInOrder(pod, cfg, order)
  {
    ops := [];
    var k := 0;
    while k < |order|
      invariant 0 <= k <= |order|
      invariant ops == OpsInOrder(pod, cfg, order[..k])
    {
      var ic := cfg[order[k]];
      var i := 0;
      while i < |pod.containers|
        invariant 0 <= i <= |pod.containers|
        invariant ops == OpsInOrder(pod, cfg, order[..k]) + OpsFor(pod, order[k], ic, i)
      {
        if pod.containers[i].name == order[k] {
          ops := ops + [ReplaceImage(i, ic.image)];
          if ic.pullSecret != "" && ic.pullSecret !in SecretsOf(pod) {
            if |SecretsOf(pod)| == 0 {
              ops := ops + [AddSecrets([ic.pullSecret])];
            } else {
              ops := ops + [AppendSecret(ic.pullSecret)];
            }
          }
        }
        i := i + 1;
      }
      assert order[..k + 1][..k] == order[..k];
      k := k + 1;
    }
    assert order[..k] == order;
  }
}
