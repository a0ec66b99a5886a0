/** Duplicate object ids in the live checkpoint map (forensic/src/integrity.rs). */
module Integrity {
  import opened Checkpoint

  predicate Mentions(ms: seq<Mapping>, oid: nat) {
    exists m: Mapping :: m in ms && m.oid == oid
  }

  /** Some mapping of the oid goes elsewhere. */
  predicate Elsewhere(ms: seq<Mapping>, oid: nat, paddr: nat) {
    exists m: Mapping :: m in ms && m.oid == oid && m.paddr != paddr
  }

  /** The oid resolves to two distinct blocks. */
  ghost predicate Collides(ms: seq<Mapping>, oid: nat) {
    exists m: Mapping, n: Mapping :: m in ms && n in ms && m.oid == oid && n.oid == oid && m.paddr != n.paddr
  }

  /** What the scan looks at on an oid's first sighting decides whether it collides at all. */
  lemma {:induction false} FirstSightingDecides(ms: seq<Mapping>, i: nat)
    requires i < |ms| && !Mentions(ms[..i], ms[i].oid)
    ensures Elsewhere(ms[i + 1..], ms[i].oid, ms[i].paddr) <==> Collides(ms, ms[i].oid)
  {
    assert ms == ms[..i] + [ms[i]] + ms[i + 1..];
    assert forall m: Mapping :: m in ms <==> m in ms[..i] || m == ms[i] || m in ms[i + 1..];
  }

  /** The position of the first mapping of the oid. */
  function FirstMention(ms: seq<Mapping>, oid: nat): nat {
    if ms == [] || ms[0].oid == oid then 0 else 1 + FirstMention(ms[1..], oid)
  }

  lemma {:induction false} MentionedFirstAt(ms: seq<Mapping>, i: nat)
    requires i < |ms| && !Mentions(ms[..i], ms[i].oid)
    ensures FirstMention(ms, ms[i].oid) == i
    decreases i
  {
    if i > 0 {
      assert ms[0] == ms[..i][0] && ms[..i][0] in ms[..i];
      assert ms[1..][..i - 1] == ms[..i][1..];
      forall m: Mapping | m in ms[1..][..i - 1] ensures m.oid != ms[i].oid {
        assert m in ms[..i];
      }
      MentionedFirstAt(ms[1..], i - 1);
    }
  }

  /** `duplicate_oid_anomalies`: every oid that resolves to two distinct blocks, once each, by first mention. */
  method DuplicateOids(ms: seq<Mapping>) returns (out: seq<nat>)
    ensures forall oid: nat :: oid in out <==> Collides(ms, oid)
    ensures forall i, j :: 0 <= i < j < |out| ==> FirstMention(ms, out[i]) < FirstMention(ms, out[j])
  {
    out := [];
    for i := 0 to |ms|
      invariant forall oid: nat :: oid in out <==> Mentions(ms[..i], oid) && Collides(ms, oid)
      invariant forall k :: 0 <= k < |out| ==> FirstMention(ms, out[k]) < i
      invariant forall j, k :: 0 <= j < k < |out| ==> FirstMention(ms, out[j]) < FirstMention(ms, out[k])
    {
      var oid := ms[i].oid;
      var already := Mentions(ms[..i], oid);
      var collides := Elsewhere(ms[i + 1..], oid, ms[i].paddr);
      if !already {
        FirstSightingDecides(ms, i);
        MentionedFirstAt(ms, i);
      }
      forall x: nat ensures Mentions(ms[..i + 1], x) <==> Mentions(ms[..i], x) || x == oid {
        MentionsNext(ms, i, x);
      }
      if !already && collides {
        out := out + [oid];
      }
    }
    assert ms[..|ms|] == ms;
  }

  lemma {:induction false} MentionsNext(ms: seq<Mapping>, i: nat, x: nat)
    requires i < |ms|
    ensures Mentions(ms[..i + 1], x) <==> Mentions(ms[..i], x) || x == ms[i].oid
  {
    assert ms[..i + 1] == ms[..i] + [ms[i]];
    assert forall m: Mapping :: m in ms[..i + 1] <==> m in ms[..i] || m == ms[i];
  }
}
