// Grouping after k-means (crates/kenjaku-infra/src/clustering/mod.rs). The fitted model is a parameter.

module Clustering {
  import opened Wrappers
  import opened Numbers

  type Vector = seq<real>

  datatype Cluster = Cluster(id: nat, members: seq<nat>, centroid: Vector)

  // What linfa returns: a label for every vector and a centroid for every label.
  datatype Model = Model(labels: seq<nat>, centroids: seq<Vector>)

  // ---- The number of clusters --------------------------------------------------------------

  function EffectiveK(k: nat, n: nat): nat {
    Min(Min(Max(k, 1), n), Max(n / 3, 1))
  }

  // e is at least one, not above m, and leaves three vectors per cluster if it can; no larger number does.
  ghost predicate IsLargestFit(m: nat, n: nat, e: nat) {
    && 1 <= e <= m && (e == 1 || 3 * e <= n)
    && forall d: nat :: e < d <= m ==> 3 * d > n
  }

  // The largest number that is not above k, is at least one and leaves three vectors per cluster.
  lemma {:induction false} EffectiveKIsLargest(k: nat, n: nat, e: nat)
    requires n >= 1
    ensures e == EffectiveK(k, n) <==> IsLargestFit(if k == 0 then 1 else k, n, e)
  {
    var m, r := Max(k, 1), EffectiveK(k, n);
    forall d: nat | r < d <= m ensures 3 * d > n {
      assert d > n / 3;
    }
    assert IsLargestFit(m, n, r);
    assert IsLargestFit(m, n, e) ==> e >= r;
  }

  // ---- Grouping ----------------------------------------------------------------------------

  // The positions that carry a label.
  function MembersOf(labels: seq<nat>, tag: nat): seq<nat> {
    if labels == [] then [] else
      var last := |labels| - 1;
      var m := MembersOf(labels[..last], tag);
      if labels[last] == tag then m + [last] else m
  }

  // The clusters with members among those of the labels below k, each under its label.
  function NonEmpty(model: Model, k: nat): seq<Cluster>
    requires k <= |model.centroids|
  {
    if k == 0 then [] else
      var m := MembersOf(model.labels, k - 1);
      NonEmpty(model, k - 1) + if m == [] then [] else [Cluster(k - 1, m, model.centroids[k - 1])]
  }

  // They are returned with new ids, which count them.
  predicate IsGrouping(model: Model, k: nat, cs: seq<Cluster>)
    requires |model.centroids| == k
  {
    && |cs| == |NonEmpty(model, k)|
    && forall i :: 0 <= i < |cs| ==> cs[i] == NonEmpty(model, k)[i].(id := i)
  }

  predicate Increasing(s: seq<nat>) {
    forall i, j :: 0 <= i < j < |s| ==> s[i] < s[j]
  }

  ghost predicate AreMembers(labels: seq<nat>, tag: nat, m: seq<nat>) {
    Increasing(m) && forall p: nat :: p in m <==> p < |labels| && labels[p] == tag
  }

  lemma {:induction false} MembersCarryLabel(labels: seq<nat>, tag: nat)
    ensures AreMembers(labels, tag, MembersOf(labels, tag))
  {
    if labels != [] {
      var last := |labels| - 1;
      MembersCarryLabel(labels[..last], tag);
      OneMoreLabel(labels, last, tag, MembersOf(labels[..last], tag));
    }
  }

  lemma {:induction false} OneMoreLabel(labels: seq<nat>, last: nat, tag: nat, m: seq<nat>)
    requires |labels| == last + 1 && AreMembers(labels[..last], tag, m)
    ensures AreMembers(labels, tag, if labels[last] == tag then m + [last] else m)
  {
    assert forall p: nat :: p in m + [last] <==> p in m || p == last;
    assert forall p: nat :: p < last ==> labels[..last][p] == labels[p];
    assert forall i :: 0 <= i < |m| ==> m[i] in m;
  }

  ghost predicate IsClusterOf(model: Model, c: Cluster, tag: nat) {
    && tag < |model.centroids| && c.centroid == model.centroids[tag]
    && c.members != [] && AreMembers(model.labels, tag, c.members)
  }

  lemma {:induction false} NonEmptyAreClusters(model: Model, k: nat)
    requires k <= |model.centroids|
    ensures var cs := NonEmpty(model, k);
            && (forall i :: 0 <= i < |cs| ==> cs[i].id < k && IsClusterOf(model, cs[i], cs[i].id))
            && (forall i, j :: 0 <= i < j < |cs| ==> cs[i].id < cs[j].id)
            && (forall p :: 0 <= p < |model.labels| && model.labels[p] < k ==>
                  exists i :: 0 <= i < |cs| && cs[i].id == model.labels[p])
  {
    if k > 0 {
      var before, cs, m := NonEmpty(model, k - 1), NonEmpty(model, k), MembersOf(model.labels, k - 1);
      NonEmptyAreClusters(model, k - 1);
      MembersCarryLabel(model.labels, k - 1);
      assert forall i :: 0 <= i < |before| ==> cs[i] == before[i];
      forall p | 0 <= p < |model.labels| && model.labels[p] < k
        ensures exists i :: 0 <= i < |cs| && cs[i].id == model.labels[p]
      {
        if model.labels[p] == k - 1 {
          assert p in m;
          assert cs[|before|].id == k - 1;
        } else {
          var i :| 0 <= i < |before| && before[i].id == model.labels[p];
          assert cs[i].id == model.labels[p];
        }
      }
    }
  }

  // The clusters partition the positions whose labels are in range: every such position is in a cluster,
  // each cluster holds exactly the positions of one label, with that label's centroid, and the clusters
  // are in order of their labels. Ids are dense and no cluster is empty.
  lemma {:induction false} GroupingPartitions(model: Model, k: nat, cs: seq<Cluster>)
    requires |model.centroids| == k && IsGrouping(model, k, cs)
    ensures forall i :: 0 <= i < |cs| ==> cs[i].id == i && exists tag :: IsClusterOf(model, cs[i], tag)
    ensures forall p :: 0 <= p < |model.labels| && model.labels[p] < k ==>
              exists i :: 0 <= i < |cs| && p in cs[i].members
    ensures forall i, j, p: nat, q: nat ::
              0 <= i < |cs| && 0 <= j < |cs| && p in cs[i].members && q in cs[j].members ==>
                && p < |model.labels| && q < |model.labels|
                && (i == j <==> model.labels[p] == model.labels[q])
                && (i < j ==> model.labels[p] < model.labels[q])
  {
    var labels, named := model.labels, NonEmpty(model, k);
    NonEmptyAreClusters(model, k);
    forall i | 0 <= i < |cs| ensures cs[i].id == i && exists tag :: IsClusterOf(model, cs[i], tag) {
      assert IsClusterOf(model, cs[i], named[i].id);
    }
    forall p | 0 <= p < |labels| && labels[p] < k ensures exists i :: 0 <= i < |cs| && p in cs[i].members {
      var i :| 0 <= i < |cs| && named[i].id == labels[p];
      assert IsClusterOf(model, named[i], labels[p]);
      assert p in cs[i].members;
    }
    forall i, j, p: nat, q: nat | 0 <= i < |cs| && 0 <= j < |cs| && p in cs[i].members && q in cs[j].members
      ensures p < |labels| && q < |labels| && (i == j <==> labels[p] == labels[q])
      ensures i < j ==> labels[p] < labels[q]
    {
      MemberHasLabel(model, named[i], p);
      MemberHasLabel(model, named[j], q);
      assert i < j ==> named[i].id < named[j].id;
      assert j < i ==> named[j].id < named[i].id;
    }
  }

  lemma {:induction false} MemberHasLabel(model: Model, c: Cluster, p: nat)
    requires IsClusterOf(model, c, c.id) && p in c.members
    ensures p < |model.labels| && model.labels[p] == c.id
  {
  }

  // ---- The method --------------------------------------------------------------------------

  predicate HaveDimension(vectors: seq<Vector>, dim: nat) {
    forall i :: 0 <= i < |vectors| ==> |vectors[i]| == dim
  }

  predicate FitsInput(fit: nat -> Option<Model>, vectors: seq<Vector>, k: nat) {
    fit(k).Some? ==> |fit(k).value.labels| == |vectors| && |fit(k).value.centroids| == k
  }

  method Kmeans(vectors: seq<Vector>, k: nat, fit: nat -> Option<Model>) returns (r: Result<seq<Cluster>, string>)
    requires FitsInput(fit, vectors, EffectiveK(k, |vectors|))
    ensures vectors == [] ==> r == Success([])
    ensures vectors != [] ==>
              var e := EffectiveK(k, |vectors|);
              && (r.Success? <==> |vectors[0]| > 0 && HaveDimension(vectors, |vectors[0]|) && fit(e).Some?)
              && (r.Success? ==> IsGrouping(fit(e).value, e, r.value))
  {
    if vectors == [] {
      return Success([]);
    }
    var n, dim := |vectors|, |vectors[0]|;
    if dim == 0 {
      return Failure("input vectors are zero-dimensional");
    }
    for i := 0 to n
      invariant forall j :: 0 <= j < i ==> |vectors[j]| == dim
    {
      if |vectors[i]| != dim {
        return Failure("vector has another dimension");
      }
    }
    var effectiveK := EffectiveK(k, n);
    var fitted := fit(effectiveK);
    if fitted.None? {
      return Failure("KMeans fit failed");
    }
    var model := fitted.value;
    var clusters := Group(model, effectiveK);
    clusters := DropEmpty(model, effectiveK, clusters);
    clusters := Renumber(clusters);
    return Success(clusters);
  }

  method Group(model: Model, k: nat) returns (clusters: seq<Cluster>)
    requires |model.centroids| == k
    ensures |clusters| == k
    ensures forall l :: 0 <= l < k ==> clusters[l] == Cluster(l, MembersOf(model.labels, l), model.centroids[l])
  {
    clusters := seq(k, l requires 0 <= l < k => Cluster(l, [], model.centroids[l]));
    for idx := 0 to |model.labels|
      invariant |clusters| == k
      invariant forall l :: 0 <= l < k ==>
                  clusters[l] == Cluster(l, MembersOf(model.labels[..idx], l), model.centroids[l])
    {
      var tag := model.labels[idx];
      assert model.labels[..idx + 1][..idx] == model.labels[..idx];
      if tag < |clusters| {
        clusters := clusters[tag := clusters[tag].(members := clusters[tag].members + [idx])];
      }
    }
    assert model.labels[..|model.labels|] == model.labels;
  }

  method DropEmpty(model: Model, k: nat, clusters: seq<Cluster>) returns (kept: seq<Cluster>)
    requires |model.centroids| == k && |clusters| == k
    requires forall l :: 0 <= l < k ==> clusters[l] == Cluster(l, MembersOf(model.labels, l), model.centroids[l])
    ensures kept == NonEmpty(model, k)
  {
    kept := [];
    for l := 0 to k
      invariant kept == NonEmpty(model, l)
    {
      if clusters[l].members != [] {
        kept := kept + [clusters[l]];
      }
    }
  }

  method Renumber(clusters: seq<Cluster>) returns (cs: seq<Cluster>)
    ensures |cs| == |clusters| && forall i :: 0 <= i < |cs| ==> cs[i] == clusters[i].(id := i)
  {
    cs := clusters;
    for newId := 0 to |cs|
      invariant |cs| == |clusters|
      invariant forall i :: 0 <= i < |cs| ==> cs[i] == if i < newId then clusters[i].(id := i) else clusters[i]
    {
      cs := cs[newId := cs[newId].(id := newId)];
    }
  }
}
