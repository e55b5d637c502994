/** The product merge. Fields that are simply replaced are left out. */
module Product {
  import opened Dedup
  import opened CappedHistory
  import opened Options
  import opened Reference
  import opened Sets

  const MAX_HISTORY: nat := 20
  const MAX_OFFERS: nat := 50

  datatype ProductOffer = ProductOffer(uid: string, body: string)

  function OfferKey(item: ProductOffer): string {
    item.uid
  }

  datatype Data = Data(
    uid: string,
    uids: seq<string>,
    solds: seq<Keyed>,
    stocks: seq<Keyed>,
    comments: seq<Keyed>,
    offers: seq<ProductOffer>,
    allowedCountries: seq<string>,
    restrictedCountries: seq<string>,
    languages: seq<string>,
    countriesFromIP: seq<string>,
    firstFoundAt: Option<Time>,
    lastFoundAt: Option<Time>,
    evictedAt: Option<Time>)

  const EMPTY := Data("", [], [], [], [], [], [], [], [], [], None, None, None)

  ghost function WithIdentity(p: Data, incoming: Data): Data {
    p.(uid := if incoming.uid != "" then incoming.uid else p.uid,
       uids := UniqueStringsOf(p.uids + [p.uid] + (if incoming.uid != "" then [incoming.uid] else []) + incoming.uids, true))
  }

  ghost function WithHistories(p: Data, incoming: Data): Data {
    p.(solds := Append(p.solds, incoming.solds, KeyOf, MAX_HISTORY),
       stocks := Append(p.stocks, incoming.stocks, KeyOf, MAX_HISTORY),
       comments := Append(p.comments, incoming.comments, KeyOf, MAX_HISTORY))
  }

  ghost function WithOffers(p: Data, incoming: Data): Data {
    p.(offers := Prepend(p.offers, incoming.offers, OfferKey, MAX_OFFERS))
  }

  ghost function WithCountries(p: Data, incoming: Data): Data {
    p.(allowedCountries := Grow(p.allowedCountries, incoming.allowedCountries),
       restrictedCountries := Grow(p.restrictedCountries, incoming.restrictedCountries))
  }

  ghost function WithLanguages(p: Data, incoming: Data): Data {
    p.(languages := Grow(p.languages, incoming.languages),
       countriesFromIP := Grow(p.countriesFromIP, incoming.countriesFromIP))
  }

  ghost function WithStamps(p: Data, stamp: Time, incoming: Data): Data {
    p.(firstFoundAt := FirstOf(p.firstFoundAt, incoming.firstFoundAt, stamp),
       lastFoundAt := Some(stamp),
       evictedAt := if incoming.evictedAt.Some? then incoming.evictedAt else p.evictedAt)
  }

  /** One incoming product merged into `p`. */
  ghost function MergeOne(p: Data, stamp: Time, incoming: Data): Data {
    var listed := WithOffers(WithHistories(WithIdentity(p, incoming), incoming), incoming);
    WithLanguages(WithStamps(WithCountries(listed, incoming), stamp, incoming), incoming)
  }

  ghost function MergeAll(p: Data, stamp: Time, products: seq<Data>): Data {
    if products == [] then p
    else MergeOne(MergeAll(p, stamp, products[..|products| - 1]), stamp, products[|products| - 1])
  }

  /** The merge of an incoming product into a stored one, if there is one. */
  ghost function Merged(current: Option<Data>, incoming: Data, stamp: Time): Data {
    var base := if current.Some? then MergeOne(EMPTY, stamp, current.value) else EMPTY;
    MergeOne(base, stamp, incoming).(evictedAt := None)
  }

  class Product {
    var uid: string
    var uids: seq<string>
    var solds: seq<Keyed>
    var stocks: seq<Keyed>
    var comments: seq<Keyed>
    var offers: seq<ProductOffer>
    var allowedCountries: seq<string>
    var restrictedCountries: seq<string>
    var languages: seq<string>
    var countriesFromIP: seq<string>
    var firstFoundAt: Option<Time>
    var lastFoundAt: Option<Time>
    var evictedAt: Option<Time>

    ghost function View(): Data
      reads this
    {
      Data(uid, uids, solds, stocks, comments, offers, allowedCountries, restrictedCountries, languages, countriesFromIP,
           firstFoundAt, lastFoundAt, evictedAt)
    }

    constructor ()
      ensures View() == EMPTY
    {
      uid, uids, solds, stocks, comments, offers := "", [], [], [], [], [];
      allowedCountries, restrictedCountries, languages, countriesFromIP := [], [], [], [];
      firstFoundAt, lastFoundAt, evictedAt := None, None, None;
    }

    method MergeIdentity(incoming: Data)
      modifies this
      ensures View() == WithIdentity(old(View()), incoming)
    {
      uids := uids + [uid];
      if incoming.uid != "" {
        uids := uids + [incoming.uid];
        uid := incoming.uid;
      }
      assert uids == old(uids) + [old(uid)] + (if incoming.uid != "" then [incoming.uid] else []);
      uids := uids + incoming.uids;
      uids := UniqueStrings(uids, true);
    }

    method MergeHistories(incoming: Data)
      modifies this
      ensures View() == WithHistories(old(View()), incoming)
    {
      if |incoming.solds| > 0 {
        solds := AppendUnique(solds, incoming.solds, KeyOf);
      }
      solds := KeepTail(solds, MAX_HISTORY);
      if |incoming.stocks| > 0 {
        stocks := AppendUnique(stocks, incoming.stocks, KeyOf);
      }
      stocks := KeepTail(stocks, MAX_HISTORY);
      if |incoming.comments| > 0 {
        comments := AppendUnique(comments, incoming.comments, KeyOf);
      }
      comments := KeepTail(comments, MAX_HISTORY);
    }

    method MergeOffers(incoming: Data)
      modifies this
      ensures View() == WithOffers(old(View()), incoming)
    {
      if |incoming.offers| > 0 {
        var combined := incoming.offers + offers;
        offers := AppendUnique([], combined, OfferKey);
        assert [] + combined == combined;
      }
      offers := KeepTail(offers, MAX_OFFERS);
    }

    method MergeCountries(incoming: Data)
      modifies this
      ensures View() == WithCountries(old(View()), incoming)
    {
      if |incoming.allowedCountries| > 0 {
        allowedCountries := UniqueStrings(allowedCountries + incoming.allowedCountries, false);
      }
      if |incoming.restrictedCountries| > 0 {
        restrictedCountries := UniqueStrings(restrictedCountries + incoming.restrictedCountries, false);
      }
    }

    method MergeLanguages(incoming: Data)
      modifies this
      ensures View() == WithLanguages(old(View()), incoming)
    {
      if |incoming.languages| > 0 {
        languages := UniqueStrings(languages + incoming.languages, false);
      }
      if |incoming.countriesFromIP| > 0 {
        countriesFromIP := UniqueStrings(countriesFromIP + incoming.countriesFromIP, false);
      }
    }

    method MergeStamps(observedAt: Time, incoming: Data)
      modifies this
      ensures View() == WithStamps(old(View()), observedAt, incoming)
    {
      lastFoundAt := Some(observedAt);
      if firstFoundAt.None? {
        firstFoundAt := incoming.firstFoundAt;
      }
      if firstFoundAt.None? {
        firstFoundAt := Some(observedAt);
      }
      if incoming.evictedAt.Some? {
        evictedAt := incoming.evictedAt;
      }
    }

    method MergeIncoming(observedAt: Time, incoming: Data)
      modifies this
      ensures View() == MergeOne(old(View()), observedAt, incoming)
    {
      MergeIdentity(incoming);
      MergeHistories(incoming);
      MergeOffers(incoming);
      MergeCountries(incoming);
      MergeStamps(observedAt, incoming);
      MergeLanguages(incoming);
    }

    method MergeAt(observedAt: Time, products: seq<Data>)
      modifies this
      ensures View() == MergeAll(old(View()), observedAt, products)
    {
      var i := 0;
      while i < |products|
        invariant 0 <= i <= |products|
        invariant View() == MergeAll(old(View()), observedAt, products[..i])
      {
        MergeIncoming(observedAt, products[i]);
        assert products[..i + 1][..i] == products[..i];
        i := i + 1;
      }
      assert products[..|products|] == products;
    }
  }

  method MergeProduct(current: Option<Data>, incoming: Data, observedAt: Time) returns (result: Product)
    ensures fresh(result) && result.View() == Merged(current, incoming, observedAt)
  {
    result := new Product();
    if current.Some? {
      result.MergeAt(observedAt, [current.value]);
      assert [current.value][..0] == [];
    }
    result.MergeAt(observedAt, [incoming]);
    assert [incoming][..0] == [];
    result.evictedAt := None;
  }

  // ---- what a merge keeps ----------------------------------------------------

  /** The identifiers a product carries. */
  ghost function Ids(p: Data): set<string> {
    set s | s in [p.uid] + p.uids && s != ""
  }

  ghost function IdsOf(current: Option<Data>): set<string> {
    if current.Some? then Ids(current.value) else {}
  }

  lemma MergeOneIds(p: Data, stamp: Time, incoming: Data)
    ensures var r := MergeOne(p, stamp, incoming);
            && NoDuplicates(r.uids)
            && (forall s :: s in r.uids <==> s in Ids(p) + Ids(incoming))
            && (r.uid != "" ==> r.uid in r.uids)
            && Ids(r) == Ids(p) + Ids(incoming)
  {
    UniqueStringsElements(p.uids + [p.uid] + (if incoming.uid != "" then [incoming.uid] else []) + incoming.uids, true);
  }

  ghost predicate Tidy(p: Data) {
    && Normal(p.solds, KeyOf, MAX_HISTORY)
    && Normal(p.stocks, KeyOf, MAX_HISTORY)
    && Normal(p.comments, KeyOf, MAX_HISTORY)
    && Normal(p.offers, OfferKey, MAX_OFFERS)
    && NoDuplicates(p.allowedCountries) && NoDuplicates(p.restrictedCountries)
    && NoDuplicates(p.languages) && NoDuplicates(p.countriesFromIP)
  }

  lemma MergeOneTidy(p: Data, stamp: Time, incoming: Data)
    requires Tidy(p)
    ensures Tidy(MergeOne(p, stamp, incoming))
  {
    AppendIsNormal(p.solds, incoming.solds, KeyOf, MAX_HISTORY);
    AppendIsNormal(p.stocks, incoming.stocks, KeyOf, MAX_HISTORY);
    AppendIsNormal(p.comments, incoming.comments, KeyOf, MAX_HISTORY);
    PrependIsNormal(p.offers, incoming.offers, OfferKey, MAX_OFFERS);
    UniqueStringsElements(p.allowedCountries + incoming.allowedCountries, false);
    UniqueStringsElements(p.restrictedCountries + incoming.restrictedCountries, false);
    UniqueStringsElements(p.languages + incoming.languages, false);
    UniqueStringsElements(p.countriesFromIP + incoming.countriesFromIP, false);
  }

  datatype SetField = Allowed | Restricted | Languages | FromIP

  /** The four lists that only grow. */
  ghost function ListOf(p: Data, f: SetField): seq<string> {
    match f
    case Allowed => p.allowedCountries
    case Restricted => p.restrictedCountries
    case Languages => p.languages
    case FromIP => p.countriesFromIP
  }

  ghost function SetOf(current: Option<Data>, f: SetField): set<string> {
    if current.Some? then Strings(ListOf(current.value, f)) else {}
  }

  lemma MergeOneList(p: Data, stamp: Time, incoming: Data, f: SetField)
    ensures ListOf(MergeOne(p, stamp, incoming), f) == Grow(ListOf(p, f), ListOf(incoming, f))
  {
  }

  /** Countries and languages of a merge are exactly those of the two sides. */
  lemma MergedSet(current: Option<Data>, incoming: Data, stamp: Time, f: SetField)
    ensures SetOf(Some(Merged(current, incoming, stamp)), f) == SetOf(current, f) + Strings(ListOf(incoming, f))
  {
    var base := if current.Some? then MergeOne(EMPTY, stamp, current.value) else EMPTY;
    assert ListOf(EMPTY, f) == [];
    if current.Some? {
      MergeOneList(EMPTY, stamp, current.value, f);
      GrowStrings([], ListOf(current.value, f));
    }
    MergeOneList(base, stamp, incoming, f);
    GrowStrings(ListOf(base, f), ListOf(incoming, f));
  }

  /** What one merge of a stored and an incoming product guarantees, whatever the
      stored product looked like. */
  lemma MergedIsSound(current: Option<Data>, incoming: Data, stamp: Time)
    ensures var r := Merged(current, incoming, stamp);
            && Tidy(r)
            && NoDuplicates(r.uids) && (forall s :: s in r.uids <==> s in IdsOf(current) + Ids(incoming))
            && (r.uid != "" ==> r.uid in r.uids)
            && Ids(r) == IdsOf(current) + Ids(incoming)
            && r.lastFoundAt == Some(stamp) && r.evictedAt == None
            && r.firstFoundAt.Some?
  {
    assert Ids(EMPTY) == {};
    var base := if current.Some? then MergeOne(EMPTY, stamp, current.value) else EMPTY;
    if current.Some? {
      MergeOneIds(EMPTY, stamp, current.value);
      MergeOneTidy(EMPTY, stamp, current.value);
    }
    MergeOneIds(base, stamp, incoming);
    MergeOneTidy(base, stamp, incoming);
  }

  // ---- one merge, field by field --------------------------------------------------

  /** The stored product, or an empty one. */
  ghost function StoredOf(current: Option<Data>): Data {
    if current.Some? then current.value else EMPTY
  }

  /** The last 20 of the stored histories followed by the incoming ones, and the last 50 of the incoming
      offers followed by the stored ones, each with one item for every key. */
  lemma MergedLists(current: Option<Data>, incoming: Data, stamp: Time)
    ensures var r, s := Merged(current, incoming, stamp), StoredOf(current);
            && r.solds == KeepTail(Unique(KeepTail(Unique(s.solds, KeyOf), 20) + incoming.solds, KeyOf), 20)
            && r.stocks == KeepTail(Unique(KeepTail(Unique(s.stocks, KeyOf), 20) + incoming.stocks, KeyOf), 20)
            && r.comments == KeepTail(Unique(KeepTail(Unique(s.comments, KeyOf), 20) + incoming.comments, KeyOf), 20)
            && r.offers == KeepTail(Unique(incoming.offers + KeepTail(Unique(s.offers, OfferKey), 50), OfferKey), 50)
  {
    var s := StoredOf(current);
    ListsOfMerge(current, incoming, stamp);
    StoredThenIncoming(s.solds, incoming.solds, KeyOf, MAX_HISTORY);
    StoredThenIncoming(s.stocks, incoming.stocks, KeyOf, MAX_HISTORY);
    StoredThenIncoming(s.comments, incoming.comments, KeyOf, MAX_HISTORY);
    IncomingThenStored(s.offers, incoming.offers, OfferKey, MAX_OFFERS);
  }

  lemma ListsOfMerge(current: Option<Data>, incoming: Data, stamp: Time)
    ensures var r, s := Merged(current, incoming, stamp), StoredOf(current);
            && r.solds == Append(Append([], s.solds, KeyOf, MAX_HISTORY), incoming.solds, KeyOf, MAX_HISTORY)
            && r.stocks == Append(Append([], s.stocks, KeyOf, MAX_HISTORY), incoming.stocks, KeyOf, MAX_HISTORY)
            && r.comments == Append(Append([], s.comments, KeyOf, MAX_HISTORY), incoming.comments, KeyOf, MAX_HISTORY)
            && r.offers == Prepend(Prepend([], s.offers, OfferKey, MAX_OFFERS), incoming.offers, OfferKey, MAX_OFFERS)
  {
    if current.Some? {
      MergedHistories(current.value, incoming, stamp);
    }
  }

  /** With at most 50 distinct offers none of either side is lost, and an incoming one wins. */
  lemma OffersKept(current: Option<Data>, incoming: Data, stamp: Time, uid: string)
    requires |Keys(StoredOf(current).offers + incoming.offers, OfferKey)| <= 50
    ensures var r, s := Merged(current, incoming, stamp), StoredOf(current);
            && (HasKey(r.offers, OfferKey, uid) <==> HasKey(incoming.offers, OfferKey, uid) || HasKey(s.offers, OfferKey, uid))
            && (forall i :: 0 <= i < |r.offers| ==>
                  r.offers[i] in (if HasKey(incoming.offers, OfferKey, r.offers[i].uid) then incoming.offers else s.offers))
  {
    var r, s := Merged(current, incoming, stamp), StoredOf(current);
    ListsOfMerge(current, incoming, stamp);
    IncomingWins(s.offers, incoming.offers, OfferKey, MAX_OFFERS, uid);
    forall i | 0 <= i < |r.offers|
      ensures r.offers[i] in (if HasKey(incoming.offers, OfferKey, r.offers[i].uid) then incoming.offers else s.offers)
    {
      if HasKey(incoming.offers, OfferKey, r.offers[i].uid) {
        var j :| 0 <= j < |incoming.offers| && OfferKey(incoming.offers[j]) == r.offers[i].uid;
      }
    }
  }

  /** The current identifier is the incoming one if there is one, and the identifiers are listed in the
      order of first mention: the stored ones, then the incoming ones. */
  lemma MergedIdentity(current: Option<Data>, incoming: Data, stamp: Time)
    ensures var r, s := Merged(current, incoming, stamp), StoredOf(current);
            && r.uid == (if incoming.uid != "" then incoming.uid else s.uid)
            && r.uids == Unique(NonEmpty([s.uid] + s.uids + [incoming.uid] + incoming.uids), Itself)
  {
    var s := StoredOf(current);
    var own := if incoming.uid != "" then [incoming.uid] else [];
    if current.Some? {
      var listed := if s.uid != "" then [s.uid] else [];
      FirstListing(s);
      UniqueStringsElements([s.uid] + s.uids, true);
      UniqueStringsAgain([s.uid] + s.uids, s.uid, own + incoming.uids);
      assert UniqueStringsOf([s.uid] + s.uids, true) + [s.uid] + own + incoming.uids ==
             UniqueStringsOf([s.uid] + s.uids, true) + [s.uid] + (own + incoming.uids);
      DropEmpty([s.uid] + s.uids, incoming.uid, incoming.uids);
    } else {
      assert [] + [""] + own + incoming.uids == [""] + (own + incoming.uids);
      assert [s.uid] + s.uids == [""];
      DropEmpty([""], incoming.uid, incoming.uids);
    }
  }

  lemma FirstListing(s: Data)
    ensures UniqueStringsOf([] + [""] + (if s.uid != "" then [s.uid] else []) + s.uids, true) == UniqueStringsOf([s.uid] + s.uids, true)
  {
    var own := if s.uid != "" then [s.uid] else [];
    assert [] + [""] + own + s.uids == [""] + (own + s.uids);
    NonEmptyConcat([""], own + s.uids);
    NonEmptyConcat(own, s.uids);
    NonEmptyConcat([s.uid], s.uids);
    NonEmptyOne("");
    NonEmptyOne(s.uid);
    assert NonEmpty([]) == [];
    assert NonEmpty(own) == NonEmpty([s.uid]);
    assert [] + (NonEmpty(own) + NonEmpty(s.uids)) == NonEmpty(own) + NonEmpty(s.uids);
  }

  /** Leaving out an empty identifier does not show. */
  lemma DropEmpty(a: seq<string>, uid: string, b: seq<string>)
    ensures UniqueStringsOf(a + ((if uid != "" then [uid] else []) + b), true) == Unique(NonEmpty(a + [uid] + b), Itself)
  {
    var own := if uid != "" then [uid] else [];
    NonEmptyConcat(a, own + b);
    NonEmptyConcat(own, b);
    NonEmptyConcat(a + [uid], b);
    NonEmptyConcat(a, [uid]);
    NonEmptyOne(uid);
    assert NonEmpty([]) == [];
    assert NonEmpty(own) == NonEmpty([uid]);
    assert NonEmpty(a) + (NonEmpty(own) + NonEmpty(b)) == NonEmpty(a) + NonEmpty(own) + NonEmpty(b);
  }

  /** The first-found time is that of the stored product, if there is one, and otherwise the incoming
      one; where the side asked has none it is the time of the merge. */
  lemma MergedFirstFound(current: Option<Data>, incoming: Data, stamp: Time)
    ensures var first := if current.Some? then current.value.firstFoundAt else incoming.firstFoundAt;
            Merged(current, incoming, stamp).firstFoundAt == (if first.Some? then first else Some(stamp))
  {
  }

  datatype Delivery = Delivery(incoming: Data, stamp: Time)

  /** The stored product before, between and after a sequence of deliveries. */
  ghost predicate IsHistory(states: seq<Option<Data>>, deliveries: seq<Delivery>) {
    && |states| == |deliveries| + 1
    && forall i :: 0 <= i < |deliveries| ==>
         states[i + 1] == Some(Merged(states[i], deliveries[i].incoming, deliveries[i].stamp))
  }

  /** Every non-empty identifier seen up to delivery `n`. */
  ghost function SeenIds(start: Option<Data>, deliveries: seq<Delivery>, n: nat): set<string>
    requires n <= |deliveries|
  {
    if n == 0 then IdsOf(start) else SeenIds(start, deliveries, n - 1) + Ids(deliveries[n - 1].incoming)
  }

  lemma HistoryStep(states: seq<Option<Data>>, deliveries: seq<Delivery>, n: nat)
    requires IsHistory(states, deliveries) && n < |deliveries|
    ensures IdsOf(states[n + 1]) == IdsOf(states[n]) + Ids(deliveries[n].incoming)
  {
    MergedIsSound(states[n], deliveries[n].incoming, deliveries[n].stamp);
  }

  lemma {:induction false} SeenChain(ids: seq<set<string>>, start: Option<Data>, deliveries: seq<Delivery>, n: nat)
    requires |ids| == |deliveries| + 1 && n < |ids| && ids[0] == IdsOf(start)
    requires forall i :: 0 <= i < |deliveries| ==> ids[i + 1] == ids[i] + Ids(deliveries[i].incoming)
    ensures ids[n] == SeenIds(start, deliveries, n)
  {
    if n > 0 {
      SeenChain(ids, start, deliveries, n - 1);
      assert ids[n - 1 + 1] == ids[n - 1] + Ids(deliveries[n - 1].incoming);
    }
  }

  lemma IdsAreSeen(states: seq<Option<Data>>, deliveries: seq<Delivery>, n: nat)
    requires IsHistory(states, deliveries) && n < |states|
    ensures IdsOf(states[n]) == SeenIds(states[0], deliveries, n)
  {
    var ids := seq(|states|, i requires 0 <= i < |states| => IdsOf(states[i]));
    forall i | 0 <= i < |deliveries|
      ensures ids[i + 1] == ids[i] + Ids(deliveries[i].incoming)
    {
      HistoryStep(states, deliveries, i);
    }
    SeenChain(ids, states[0], deliveries, n);
  }

  /** Over every sequence of deliveries and from every start: the identifiers are
      exactly the non-empty ones ever seen, each once and including the current
      one; the bounded lists are unique by key and within their limits; nothing is
      marked as evicted. */
  lemma EverySequenceSound(states: seq<Option<Data>>, deliveries: seq<Delivery>, n: nat)
    requires IsHistory(states, deliveries) && 0 < n < |states|
    ensures states[n].Some?
    ensures var r := states[n].value;
            && Tidy(r)
            && NoDuplicates(r.uids) && (forall s :: s in r.uids <==> s in SeenIds(states[0], deliveries, n))
            && (r.uid != "" ==> r.uid in r.uids)
            && r.evictedAt == None
            && r.lastFoundAt == Some(deliveries[n - 1].stamp)
            && r.firstFoundAt.Some?
  {
    IdsAreSeen(states, deliveries, n - 1);
    MergedIsSound(states[n - 1], deliveries[n - 1].incoming, deliveries[n - 1].stamp);
    assert states[n - 1 + 1] == Some(Merged(states[n - 1], deliveries[n - 1].incoming, deliveries[n - 1].stamp));
  }

  ghost function IncomingSets(deliveries: seq<Delivery>, f: SetField): seq<set<string>> {
    seq(|deliveries|, i requires 0 <= i < |deliveries| => Strings(ListOf(deliveries[i].incoming, f)))
  }

  /** After any deliveries each of the four lists holds exactly what was ever seen for it. */
  lemma SetsAreSeen(states: seq<Option<Data>>, deliveries: seq<Delivery>, n: nat, f: SetField, s: string)
    requires IsHistory(states, deliveries) && 0 < n < |states|
    ensures states[n].Some?
    ensures s in ListOf(states[n].value, f) <==> Seen(SetOf(states[0], f), IncomingSets(deliveries, f), n, s)
  {
    assert states[n - 1 + 1] == Some(Merged(states[n - 1], deliveries[n - 1].incoming, deliveries[n - 1].stamp));
    var sets := seq(|states|, i requires 0 <= i < |states| => SetOf(states[i], f));
    forall i | 0 <= i < |deliveries|
      ensures sets[i + 1] == sets[i] + IncomingSets(deliveries, f)[i]
    {
      MergedSet(states[i], deliveries[i].incoming, deliveries[i].stamp, f);
    }
    UnionChain(sets, IncomingSets(deliveries, f), n, s);
  }

  /** The last identifier that was not empty, or the stored one. */
  ghost function LastUID(start: Option<Data>, deliveries: seq<Delivery>, n: nat): string
    requires n <= |deliveries|
  {
    if n == 0 then StoredOf(start).uid
    else if deliveries[n - 1].incoming.uid != "" then deliveries[n - 1].incoming.uid
    else LastUID(start, deliveries, n - 1)
  }

  lemma {:induction false} CurrentUIDIsLast(states: seq<Option<Data>>, deliveries: seq<Delivery>, n: nat)
    requires IsHistory(states, deliveries) && 0 < n < |states|
    ensures states[n].Some? && states[n].value.uid == LastUID(states[0], deliveries, n)
  {
    assert states[n - 1 + 1] == Some(Merged(states[n - 1], deliveries[n - 1].incoming, deliveries[n - 1].stamp));
    MergedIdentity(states[n - 1], deliveries[n - 1].incoming, deliveries[n - 1].stamp);
    if n > 1 {
      CurrentUIDIsLast(states, deliveries, n - 1);
    }
  }

  lemma MergedKeepsFirstFound(current: Option<Data>, incoming: Data, stamp: Time)
    ensures Merged(current, incoming, stamp).firstFoundAt.Some?
    ensures current.Some? && current.value.firstFoundAt.Some? ==>
              Merged(current, incoming, stamp).firstFoundAt == current.value.firstFoundAt
  {
  }

  /** The first-found time is settled by the first merge and never changes again. */
  lemma {:induction false} FirstFoundNeverChanges(states: seq<Option<Data>>, deliveries: seq<Delivery>, i: nat, j: nat)
    requires IsHistory(states, deliveries) && 0 < i <= j < |states|
    ensures states[i].Some? && states[j].Some? && states[i].value.firstFoundAt.Some?
    ensures states[j].value.firstFoundAt == states[i].value.firstFoundAt
    decreases j
  {
    assert states[j - 1 + 1] == Some(Merged(states[j - 1], deliveries[j - 1].incoming, deliveries[j - 1].stamp));
    MergedKeepsFirstFound(states[j - 1], deliveries[j - 1].incoming, deliveries[j - 1].stamp);
    if i < j {
      FirstFoundNeverChanges(states, deliveries, i, j - 1);
    }
  }

  // ---- replaying one product ----------------------------------------------------

  ghost predicate IsProductReplay(states: seq<Data>, incoming: Data, stamps: seq<Time>) {
    && |states| == |stamps| + 1
    && forall i :: 0 <= i < |stamps| ==> states[i + 1] == Merged(Some(states[i]), incoming, stamps[i])
  }

  ghost predicate SameHistories(a: Data, b: Data) {
    a.solds == b.solds && a.stocks == b.stocks && a.comments == b.comments && a.offers == b.offers
  }

  /** One delivery to a stored product: its lists are first merged into empty ones. */
  lemma MergedHistories(p: Data, incoming: Data, stamp: Time)
    ensures var r := Merged(Some(p), incoming, stamp);
            && r.solds == Append(Append([], p.solds, KeyOf, MAX_HISTORY), incoming.solds, KeyOf, MAX_HISTORY)
            && r.stocks == Append(Append([], p.stocks, KeyOf, MAX_HISTORY), incoming.stocks, KeyOf, MAX_HISTORY)
            && r.comments == Append(Append([], p.comments, KeyOf, MAX_HISTORY), incoming.comments, KeyOf, MAX_HISTORY)
            && r.offers == Prepend(Prepend([], p.offers, OfferKey, MAX_OFFERS), incoming.offers, OfferKey, MAX_OFFERS)
  {
  }

  /** The second delivery and all later ones leave the offers as they are, whatever their number. */
  lemma OffersSettleAtOnce(states: seq<Data>, incoming: Data, stamps: seq<Time>, i: nat)
    requires IsProductReplay(states, incoming, stamps) && 0 < i < |states| - 1
    ensures states[i + 1].offers == states[i].offers
  {
    var before := Prepend([], states[i - 1].offers, OfferKey, MAX_OFFERS);
    assert states[i - 1 + 1] == Merged(Some(states[i - 1]), incoming, stamps[i - 1]);
    MergedHistories(states[i - 1], incoming, stamps[i - 1]);
    MergedHistories(states[i], incoming, stamps[i]);
    MergedIsSound(Some(states[i - 1]), incoming, stamps[i - 1]);
    PrependToEmpty(states[i].offers, OfferKey, MAX_OFFERS);
    PrependIdempotent(before, incoming.offers, OfferKey, MAX_OFFERS);
  }

  /** The three histories of a replayed product are replays of lists. */
  lemma ReplayLists(states: seq<Data>, incoming: Data, stamps: seq<Time>)
    returns (solds: seq<seq<Keyed>>, stocks: seq<seq<Keyed>>, comments: seq<seq<Keyed>>)
    requires IsProductReplay(states, incoming, stamps)
    ensures |solds| == |stocks| == |comments| == |states|
    ensures forall i :: 0 <= i < |states| ==>
              solds[i] == states[i].solds && stocks[i] == states[i].stocks && comments[i] == states[i].comments
    ensures IsStoredReplay(solds, incoming.solds, KeyOf, MAX_HISTORY)
    ensures IsStoredReplay(stocks, incoming.stocks, KeyOf, MAX_HISTORY)
    ensures IsStoredReplay(comments, incoming.comments, KeyOf, MAX_HISTORY)
  {
    solds := seq(|states|, i requires 0 <= i < |states| => states[i].solds);
    stocks := seq(|states|, i requires 0 <= i < |states| => states[i].stocks);
    comments := seq(|states|, i requires 0 <= i < |states| => states[i].comments);
    forall i | 0 <= i < |stamps|
      ensures solds[i + 1] == Append(Append([], solds[i], KeyOf, MAX_HISTORY), incoming.solds, KeyOf, MAX_HISTORY)
      ensures stocks[i + 1] == Append(Append([], stocks[i], KeyOf, MAX_HISTORY), incoming.stocks, KeyOf, MAX_HISTORY)
      ensures comments[i + 1] == Append(Append([], comments[i], KeyOf, MAX_HISTORY), incoming.comments, KeyOf, MAX_HISTORY)
    {
      MergedHistories(states[i], incoming, stamps[i]);
    }
  }

  ghost predicate FewKeys(incoming: Data) {
    && |Keys(incoming.solds, KeyOf)| <= MAX_HISTORY
    && |Keys(incoming.stocks, KeyOf)| <= MAX_HISTORY
    && |Keys(incoming.comments, KeyOf)| <= MAX_HISTORY
  }

  /** From the twentieth delivery on, another delivery of one product changes none of its lists
      if and only if each incoming history has at most 20 distinct keys. */
  lemma ReplayConverges(states: seq<Data>, incoming: Data, stamps: seq<Time>, i: nat)
    requires IsProductReplay(states, incoming, stamps) && MAX_HISTORY <= i < |states| - 1
    ensures SameHistories(states[i], states[i + 1]) <==> FewKeys(incoming)
  {
    var solds, stocks, comments := ReplayLists(states, incoming, stamps);
    StoredSettlesIff(solds, incoming.solds, KeyOf, MAX_HISTORY, i);
    StoredSettlesIff(stocks, incoming.stocks, KeyOf, MAX_HISTORY, i);
    StoredSettlesIff(comments, incoming.comments, KeyOf, MAX_HISTORY, i);
    OffersSettleAtOnce(states, incoming, stamps, i);
  }

  /** A history with more keys than that is changed by every delivery, the first included. */
  lemma TooManyKeysNeverSettle(states: seq<Data>, incoming: Data, stamps: seq<Time>, i: nat)
    requires IsProductReplay(states, incoming, stamps) && i < |states| - 1
    ensures |Keys(incoming.solds, KeyOf)| > MAX_HISTORY ==> states[i + 1].solds != states[i].solds
    ensures |Keys(incoming.stocks, KeyOf)| > MAX_HISTORY ==> states[i + 1].stocks != states[i].stocks
    ensures |Keys(incoming.comments, KeyOf)| > MAX_HISTORY ==> states[i + 1].comments != states[i].comments
  {
    var solds, stocks, comments := ReplayLists(states, incoming, stamps);
    StoredNeverSettles(solds, incoming.solds, KeyOf, MAX_HISTORY, i);
    StoredNeverSettles(stocks, incoming.stocks, KeyOf, MAX_HISTORY, i);
    StoredNeverSettles(comments, incoming.comments, KeyOf, MAX_HISTORY, i);
  }
}
