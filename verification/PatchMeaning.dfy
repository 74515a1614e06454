/** What the webhook's patch does to the pod, for every order in which the map is walked. */
module PatchMeaning {
  import opened Api
  import opened Rounds
  import opened Webhook

  /** How many of the first `n` containers have one of these names. */
  function Hits(pod: Pod, names: set<string>, n: nat): nat
    requires n <= |pod.containers|
  {
    if n == 0 then 0
    else Hits(pod, names, n - 1) + if pod.containers[n - 1].name in names then 1 else 0
  }

  function Repeat(s: string, n: nat): seq<string> {
    seq(n, i => s)
  }

  /** The pull secrets after `n` containers were patched. */
  function SecretsAfter(pod: Pod, secret: string, n: nat): Option<seq<string>> {
    if n == 0 || secret == "" || secret in SecretsOf(pod) then pod.secrets
    else if |SecretsOf(pod)| == 0 then Some([secret])
    else Some(SecretsOf(pod) + Repeat(secret, n))
  }

  predicate Hit(pod: Pod, names: set<string>, c: string, n: nat, i: nat)
    requires i < |pod.containers|
  {
    pod.containers[i].name in names || (pod.containers[i].name == c && i < n)
  }

  /** The pod once the containers in `names`, and those of name `c` among the first `n`, are
      patched. */
  function Midway(pod: Pod, cfg: map<string, ImageConfig>, secret: string, names: set<string>, c: string, n: nat): Pod
    requires names <= cfg.Keys && c in cfg && n <= |pod.containers|
  {
    Pod(seq(|pod.containers|, i requires 0 <= i < |pod.containers| =>
              if Hit(pod, names, c, n, i) then
                pod.containers[i].(image := Some(cfg[pod.containers[i].name].image))
              else pod.containers[i]),
        SecretsAfter(pod, secret, Hits(pod, names, |pod.containers|) + Hits(pod, {c}, n)))
  }

  /** The pod the patch is meant to yield: each named container has its image, the original
      secrets are kept, and the missing one is the only one, or is appended once per patched
      container. */
  function Patched(pod: Pod, cfg: map<string, ImageConfig>, secret: string): Pod {
    Pod(seq(|pod.containers|, i requires 0 <= i < |pod.containers| =>
              if pod.containers[i].name in cfg then
                pod.containers[i].(image := Some(cfg[pod.containers[i].name].image))
              else pod.containers[i]),
        SecretsAfter(pod, secret, Hits(pod, cfg.Keys, |pod.containers|)))
  }

  /** Every container with one of these names has an image member to replace. */
  predicate Replaceable(pod: Pod, names: set<string>, n: nat)
    requires n <= |pod.containers|
  {
    forall i | 0 <= i < n && pod.containers[i].name in names :: pod.containers[i].image.Some?
  }

  lemma {:induction false} ApplyConcat(pod: Pod, a: seq<PatchOp>, b: seq<PatchOp>)
    ensures ApplyAll(pod, a + b)
         == match ApplyAll(pod, a) case None => None case Some(p) => ApplyAll(p, b)
  {
    if b == [] {
      assert a + b == a;
    } else {
      ApplyConcat(pod, a, b[..|b| - 1]);
      assert (a + b)[..|a + b| - 1] == a + b[..|b| - 1];
    }
  }

  lemma ApplyNone(pod: Pod)
    ensures ApplyAll(pod, []) == Some(pod)
  {
  }

  lemma ApplyOne(pod: Pod, op: PatchOp)
    ensures ApplyAll(pod, [op]) == Apply(pod, op)
  {
    assert [op][..0] == [];
  }

  lemma SecretStep(pod: Pod, secret: string, n: nat, p: Pod)
    requires p.secrets == SecretsAfter(pod, secret, n)
    ensures ApplyAll(p, SecretOps(pod, secret)) == Some(p.(secrets := SecretsAfter(pod, secret, n + 1)))
  {
    if SecretOps(pod, secret) != [] {
      ApplyOne(p, SecretOps(pod, secret)[0]);
      assert SecretOps(pod, secret) == [SecretOps(pod, secret)[0]];
      assert SecretsOf(pod) + Repeat(secret, 0) == SecretsOf(pod);
      assert SecretsOf(pod) + Repeat(secret, n) + [secret] == SecretsOf(pod) + Repeat(secret, n + 1);
    } else {
      assert p.(secrets := SecretsAfter(pod, secret, n + 1)) == p;
    }
  }

  /** One container of name `c`. */
  lemma ContainerStep(pod: Pod, cfg: map<string, ImageConfig>, secret: string, names: set<string>, c: string, n: nat)
    requires names <= cfg.Keys && c in cfg && c !in names && n < |pod.containers| && cfg[c].pullSecret == secret
    requires pod.containers[n].name == c
    ensures ApplyAll(Midway(pod, cfg, secret, names, c, n), [ReplaceImage(n, cfg[c].image)] + SecretOps(pod, secret))
         == if pod.containers[n].image.Some? then Some(Midway(pod, cfg, secret, names, c, n + 1)) else None
  {
    var p := Midway(pod, cfg, secret, names, c, n);
    ApplyConcat(p, [ReplaceImage(n, cfg[c].image)], SecretOps(pod, secret));
    ApplyOne(p, ReplaceImage(n, cfg[c].image));
    assert p.containers[n] == pod.containers[n];
    if pod.containers[n].image.Some? {
      var p' := Apply(p, ReplaceImage(n, cfg[c].image)).value;
      SecretStep(pod, secret, Hits(pod, names, |pod.containers|) + Hits(pod, {c}, n), p');
      assert p'.containers == Midway(pod, cfg, secret, names, c, n + 1).containers;
    }
  }

  /** One container of another name. */
  lemma OtherContainer(pod: Pod, cfg: map<string, ImageConfig>, secret: string, names: set<string>, c: string, n: nat)
    requires names <= cfg.Keys && c in cfg && n < |pod.containers| && pod.containers[n].name != c
    ensures Midway(pod, cfg, secret, names, c, n) == Midway(pod, cfg, secret, names, c, n + 1)
  {
    assert Midway(pod, cfg, secret, names, c, n).containers == Midway(pod, cfg, secret, names, c, n + 1).containers;
  }

  /** The inner loop. */
  lemma {:induction false} NameStep(pod: Pod, cfg: map<string, ImageConfig>, secret: string, names: set<string>, c: string, n: nat)
    requires names <= cfg.Keys && c in cfg && c !in names && n <= |pod.containers| && cfg[c].pullSecret == secret
    ensures ApplyAll(Midway(pod, cfg, secret, names, c, 0), OpsFor(pod, c, cfg[c], n))
         == if Replaceable(pod, {c}, n) then Some(Midway(pod, cfg, secret, names, c, n)) else None
  {
    hide Midway, ApplyAll;
    if n == 0 {
      ApplyNone(Midway(pod, cfg, secret, names, c, 0));
    } else {
      NameStep(pod, cfg, secret, names, c, n - 1);
      var here := if pod.containers[n - 1].name == c then
                    [ReplaceImage(n - 1, cfg[c].image)] + SecretOps(pod, cfg[c].pullSecret) else [];
      ApplyConcat(Midway(pod, cfg, secret, names, c, 0), OpsFor(pod, c, cfg[c], n - 1), here);
      assert Replaceable(pod, {c}, n) <==>
             Replaceable(pod, {c}, n - 1) && (pod.containers[n - 1].name == c ==> pod.containers[n - 1].image.Some?);
      if pod.containers[n - 1].name == c {
        ContainerStep(pod, cfg, secret, names, c, n - 1);
      } else {
        ApplyNone(Midway(pod, cfg, secret, names, c, n - 1));
        OtherContainer(pod, cfg, secret, names, c, n - 1);
      }
    }
  }

  lemma {:induction false} HitsAdd(pod: Pod, names: set<string>, c: string, n: nat)
    requires c !in names && n <= |pod.containers|
    ensures Hits(pod, names, n) + Hits(pod, {c}, n) == Hits(pod, names + {c}, n)
  {
    if n > 0 { HitsAdd(pod, names, c, n - 1); }
  }

  lemma {:induction false} NoHits(pod: Pod, n: nat)
    requires n <= |pod.containers|
    ensures Hits(pod, {}, n) == 0
  {
    if n > 0 { NoHits(pod, n - 1); }
  }

  /** Done with one name. */
  lemma NameDone(pod: Pod, cfg: map<string, ImageConfig>, secret: string, names: set<string>, c: string, d: string)
    requires names <= cfg.Keys && c in cfg && d in cfg && c !in names
    ensures Midway(pod, cfg, secret, names, c, |pod.containers|) == Midway(pod, cfg, secret, names + {c}, d, 0)
  {
    HitsAdd(pod, names, c, |pod.containers|);
    var a, b := Midway(pod, cfg, secret, names, c, |pod.containers|), Midway(pod, cfg, secret, names + {c}, d, 0);
    assert a.containers == b.containers;
  }

  function Names(order: seq<string>): set<string> {
    set c | c in order
  }

  /** The outer loop. */
  lemma {:induction false} OrderStep(pod: Pod, cfg: map<string, ImageConfig>, secret: string, order: seq<string>, d: string)
    requires NoDup(order) && Names(order) <= cfg.Keys && d in cfg
    requires forall c | c in cfg :: cfg[c].pullSecret == secret
    ensures ApplyAll(pod, OpsInOrder(pod, cfg, order))
         == if Replaceable(pod, Names(order), |pod.containers|)
            then Some(Midway(pod, cfg, secret, Names(order), d, 0)) else None
  {
    if order == [] {
      NoHits(pod, |pod.containers|);
      assert Names(order) == {};
      assert Midway(pod, cfg, secret, Names(order), d, 0).containers == pod.containers;
    } else {
      var init, c := order[..|order| - 1], order[|order| - 1];
      assert order == init + [c];
      assert Names(order) == Names(init) + {c};
      OrderStep(pod, cfg, secret, init, c);
      ApplyConcat(pod, OpsInOrder(pod, cfg, init), OpsFor(pod, c, cfg[c], |pod.containers|));
      NameStep(pod, cfg, secret, Names(init), c, |pod.containers|);
      NameDone(pod, cfg, secret, Names(init), c, d);
      assert Replaceable(pod, Names(order), |pod.containers|) <==>
             Replaceable(pod, Names(init), |pod.containers|) && Replaceable(pod, {c}, |pod.containers|);
    }
  }

  /** In whatever order the map is walked, the patch applies exactly if every container it
      names has an image member, and then it yields the intended pod. */
  lemma PatchHasOneMeaning(pod: Pod, cfg: map<string, ImageConfig>, secret: string, order: seq<string>)
    requires NoDup(order) && forall c :: c in order <==> c in cfg
    requires forall c | c in cfg :: cfg[c].pullSecret == secret
    ensures ApplyAll(pod, OpsInOrder(pod, cfg, order))
         == if Replaceable(pod, cfg.Keys, |pod.containers|) then Some(Patched(pod, cfg, secret)) else None
  {
    assert Names(order) == cfg.Keys;
    if order == [] {
      assert cfg.Keys == {};
      NoHits(pod, |pod.containers|);
      assert Patched(pod, cfg, secret).containers == pod.containers;
    } else {
      OrderStep(pod, cfg, secret, order, order[0]);
      assert Midway(pod, cfg, secret, cfg.Keys, order[0], 0).containers == Patched(pod, cfg, secret).containers;
    }
  }

  lemma {:induction false} SameHits(pod: Pod, p: Pod, names: set<string>, n: nat)
    requires |pod.containers| == |p.containers| && n <= |pod.containers|
    requires forall i | 0 <= i < |pod.containers| :: p.containers[i].name == pod.containers[i].name
    ensures Hits(pod, names, n) == Hits(p, names, n)
  {
    if n > 0 { SameHits(pod, p, names, n - 1); }
  }

  /** The webhook at work on its own result changes nothing, in whatever order. */
  lemma PatchIsIdempotent(pod: Pod, cfg: map<string, ImageConfig>, secret: string, order: seq<string>)
    requires NoDup(order) && forall c :: c in order <==> c in cfg
    requires forall c | c in cfg :: cfg[c].pullSecret == secret
    ensures var p := Patched(pod, cfg, secret);
            ApplyAll(p, OpsInOrder(p, cfg, order)) == Some(p)
  {
    var p := Patched(pod, cfg, secret);
    PatchHasOneMeaning(p, cfg, secret, order);
    SameHits(pod, p, cfg.Keys, |pod.containers|);
    assert Patched(p, cfg, secret).containers == p.containers;
    var n := Hits(pod, cfg.Keys, |pod.containers|);
    assert SecretsAfter(p, secret, n) == p.secrets by {
      if n > 0 && secret != "" && secret !in SecretsOf(pod) && |SecretsOf(pod)| > 0 {
        assert (SecretsOf(pod) + Repeat(secret, n))[|SecretsOf(pod)|] == secret;
      }
    }
  }

  /** The original secrets stay, in place and in order; one that is missing becomes the only
      one of a pod without any, and is else appended once per patched container. */
  lemma SecretsAreKept(pod: Pod, cfg: map<string, ImageConfig>, secret: string)
    ensures var p, hits := Patched(pod, cfg, secret), Hits(pod, cfg.Keys, |pod.containers|);
            && (hits == 0 || secret == "" || (pod.secrets.Some? && secret in pod.secrets.value) ==>
                  p.secrets == pod.secrets)
            && (hits > 0 && secret != "" && (pod.secrets == None || pod.secrets == Some([])) ==>
                  p.secrets == Some([secret]))
            && (hits > 0 && secret != "" && pod.secrets.Some? && pod.secrets.value != [] && secret !in pod.secrets.value ==>
                  p.secrets == Some(pod.secrets.value + seq(hits, i => secret)))
    ensures SecretsOf(pod) <= SecretsOf(Patched(pod, cfg, secret))
    ensures forall s | s in SecretsOf(Patched(pod, cfg, secret)) :: s in SecretsOf(pod) || s == secret
  {
  }

  /** The answer to a pod's creation as a whole: whatever the sort and the walk over the map
      do, the patch of the chosen images applies exactly if each of the containers it names has
      an image member, and gives every one of them its chosen image. */
  lemma AdmissionMeaning(pod: Pod, item: Item, sorted: seq<Entry>, order: seq<string>)
    requires NoDup(order) && forall c :: c in order <==> c in Chosen(item, sorted)
    ensures var cfg := Chosen(item, sorted);
            ApplyAll(pod, OpsInOrder(pod, cfg, order))
            == if Replaceable(pod, cfg.Keys, |pod.containers|) then Some(Patched(pod, cfg, item.spec.secret)) else None
  {
    PatchHasOneMeaning(pod, Chosen(item, sorted), item.spec.secret, order);
  }

  /** A patch can fail: "replace" finds nothing if the pod leaves the image to a default. */
  lemma PatchCanFail(image: string)
    ensures var pod := Pod([Container("c", None)], None);
            ApplyAll(pod, OpsInOrder(pod, map["c" := ImageConfig(image, "")], ["c"])) == None
  {
    var pod, cfg := Pod([Container("c", None)], None), map["c" := ImageConfig(image, "")];
    PatchHasOneMeaning(pod, cfg, "", ["c"]);
    assert pod.containers[0].name in cfg.Keys;
  }
}
