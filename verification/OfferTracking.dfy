/** The tracking identifiers of an offer: thirteen lists that only grow. */
module OfferTracking {
  import opened Dedup
  import opened Options
  import opened Reference

  const FIELDS: nat := 13

  /** One list for each field of `TrackingIDs`, in the order of `mergeTrackingIDs`. */
  type TrackingIDs = ids: seq<seq<string>> | |ids| == FIELDS witness seq(FIELDS, _ => [])

  class Offer {
    var trackingIDs: Option<TrackingIDs>

    constructor ()
      ensures trackingIDs == None
    {
      trackingIDs := None;
    }

    /** `mergeTrackingIDs` */
    method MergeTrackingIDs(incoming: Option<TrackingIDs>)
      modifies this
      ensures trackingIDs == Merge(old(trackingIDs), incoming)
    {
      if incoming.None? {
        return;
      }
      if trackingIDs.None? {
        trackingIDs := Some(seq(FIELDS, _ => []));
      }
      ghost var before := trackingIDs.value;
      for f := 0 to FIELDS
        invariant trackingIDs.Some?
        invariant forall g :: 0 <= g < f ==> trackingIDs.value[g] == Grow(before[g], incoming.value[g])
        invariant forall g :: f <= g < FIELDS ==> trackingIDs.value[g] == before[g]
      {
        var merged := MergeTrackingField(trackingIDs.value[f], incoming.value[f]);
        trackingIDs := Some(trackingIDs.value[f := merged]);
      }
      assert trackingIDs.value == Merge(old(trackingIDs), incoming).value;
    }
  }

  /** `mergeTrackingField`: nothing is lost or invented, known identifiers keep their places,
      and a list once free of duplicates stays so. */
  method MergeTrackingField(current: seq<string>, incoming: seq<string>) returns (result: seq<string>)
    ensures forall s :: s in result <==> s in current || s in incoming
    ensures incoming == [] ==> result == current
    ensures NoDuplicates(current) || incoming != [] ==> NoDuplicates(result)
    ensures NoDuplicates(current) ==> current <= result
    ensures result == Grow(current, incoming)
  {
    GrowElements(current, incoming);
    if NoDuplicates(current) {
      GrowKeepsOrder(current, incoming);
    }
    if |incoming| == 0 {
      return current;
    }
    result := UniqueStrings(current + incoming, false);
  }

  ghost function Merge(current: Option<TrackingIDs>, incoming: Option<TrackingIDs>): Option<TrackingIDs> {
    if incoming.None? then current
    else
      var base: TrackingIDs := if current.Some? then current.value else seq(FIELDS, _ => []);
      Some(seq(FIELDS, f requires 0 <= f < FIELDS => Grow(base[f], incoming.value[f])))
  }

  /** A stored and an incoming offer are merged into an empty one, one after the other. */
  ghost function Merged(current: Option<TrackingIDs>, incoming: Option<TrackingIDs>): Option<TrackingIDs> {
    Merge(Merge(None, current), incoming)
  }

  ghost function Field(ids: Option<TrackingIDs>, f: nat): seq<string>
    requires f < FIELDS
  {
    if ids.Some? then ids.value[f] else []
  }

  lemma GrowElements(current: seq<string>, incoming: seq<string>)
    ensures forall s :: s in Grow(current, incoming) <==> s in current || s in incoming
    ensures NoDuplicates(current) || incoming != [] ==> NoDuplicates(Grow(current, incoming))
  {
    UniqueStringsElements(current + incoming, false);
  }

  lemma GrowKeepsOrder(current: seq<string>, incoming: seq<string>)
    requires NoDuplicates(current)
    ensures current <= Grow(current, incoming)
  {
    assert DistinctKeys(current, Itself);
    UniqueAppends(current, incoming, Itself);
  }

  lemma MergedField(current: Option<TrackingIDs>, incoming: Option<TrackingIDs>, f: nat)
    requires f < FIELDS
    ensures NoDuplicates(Field(Merged(current, incoming), f))
    ensures forall s :: s in Field(Merged(current, incoming), f) <==> s in Field(current, f) || s in Field(incoming, f)
    ensures Merged(current, incoming).None? <==> current.None? && incoming.None?
  {
    var base := Merge(None, current);
    GrowElements([], Field(current, f));
    GrowElements(Field(base, f), Field(incoming, f));
  }

  ghost predicate IsHistory(states: seq<Option<TrackingIDs>>, incoming: seq<Option<TrackingIDs>>) {
    && |states| == |incoming| + 1
    && forall i :: 0 <= i < |incoming| ==> states[i + 1] == Merged(states[i], incoming[i])
  }

  ghost predicate SeenBefore(start: Option<TrackingIDs>, incoming: seq<Option<TrackingIDs>>, n: nat, f: nat, s: string)
    requires n <= |incoming| && f < FIELDS
  {
    s in Field(start, f) || exists i :: 0 <= i < n && s in Field(incoming[i], f)
  }

  /** After any deliveries each field holds exactly the identifiers ever seen for it, each once. */
  lemma {:induction false} FieldsAreSeen(states: seq<Option<TrackingIDs>>, incoming: seq<Option<TrackingIDs>>, n: nat, f: nat)
    requires IsHistory(states, incoming) && 0 < n < |states| && f < FIELDS
    ensures NoDuplicates(Field(states[n], f))
    ensures forall s :: s in Field(states[n], f) <==> SeenBefore(states[0], incoming, n, f, s)
  {
    assert states[n - 1 + 1] == Merged(states[n - 1], incoming[n - 1]);
    MergedField(states[n - 1], incoming[n - 1], f);
    if n > 1 {
      FieldsAreSeen(states, incoming, n - 1, f);
    }
    forall s
      ensures SeenBefore(states[0], incoming, n, f, s) <==>
              SeenBefore(states[0], incoming, n - 1, f, s) || s in Field(incoming[n - 1], f)
    {
    }
  }
}
