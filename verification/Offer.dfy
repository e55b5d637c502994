/** The offer merge. Fields that are simply replaced are left out. */
module Offer {
  import opened Dedup
  import opened CappedHistory
  import opened Options
  import opened Reference
  import opened Sets

  const MAX_ADDRESSES: nat := 10

  datatype Address = Address(raw: string, country: string, rest: string)
  datatype Contact = Contact(kind: string, value: string)

  function AddressKey(item: Address): string {
    item.raw + item.country
  }

  function ContactKey(item: Contact): string {
    item.kind + item.value
  }

  datatype Data = Data(
    uid: string,
    uids: seq<string>,
    addresses: seq<Address>,
    contacts: seq<Contact>,
    firstFoundAt: Option<Time>,
    lastFoundAt: Option<Time>,
    evictedAt: Option<Time>)

  const EMPTY := Data("", [], [], [], None, None, None)

  ghost function WithIdentity(p: Data, incoming: Data): Data {
    p.(uid := if incoming.uid != "" then incoming.uid else p.uid, uids := Grow(p.uids, incoming.uids))
  }

  /** Contacts are deduplicated but not capped. */
  ghost function WithLists(p: Data, incoming: Data): Data {
    p.(addresses := Append(p.addresses, incoming.addresses, AddressKey, MAX_ADDRESSES),
       contacts := if incoming.contacts != [] then Unique(p.contacts + incoming.contacts, ContactKey) else p.contacts)
  }

  ghost function WithStamps(p: Data, stamp: Time, incoming: Data): Data {
    p.(firstFoundAt := FirstOf(p.firstFoundAt, incoming.firstFoundAt, stamp),
       lastFoundAt := Some(stamp),
       evictedAt := if incoming.evictedAt.Some? then incoming.evictedAt else p.evictedAt)
  }

  /** One incoming offer merged into `p`. */
  ghost function MergeOne(p: Data, stamp: Time, incoming: Data): Data {
    WithStamps(WithLists(WithIdentity(p, incoming), incoming), stamp, incoming)
  }

  /** The merge of an incoming offer into a stored one, if there is one. */
  ghost function Merged(current: Option<Data>, incoming: Data, stamp: Time): Data {
    var base := if current.Some? then MergeOne(EMPTY, stamp, current.value) else EMPTY;
    MergeOne(base, stamp, incoming).(evictedAt := None)
  }

  class Offer {
    var uid: string
    var uids: seq<string>
    var addresses: seq<Address>
    var contacts: seq<Contact>
    var firstFoundAt: Option<Time>
    var lastFoundAt: Option<Time>
    var evictedAt: Option<Time>

    ghost function View(): Data
      reads this
    {
      Data(uid, uids, addresses, contacts, firstFoundAt, lastFoundAt, evictedAt)
    }

    constructor ()
      ensures View() == EMPTY
    {
      uid, uids, addresses, contacts := "", [], [], [];
      firstFoundAt, lastFoundAt, evictedAt := None, None, None;
    }

    method MergeIdentity(incoming: Data)
      modifies this
      ensures View() == WithIdentity(old(View()), incoming)
    {
      if incoming.uid != "" {
        uid := incoming.uid;
      }
      if |incoming.uids| > 0 {
        uids := UniqueStrings(uids + incoming.uids, false);
      }
    }

    method MergeLists(incoming: Data)
      modifies this
      ensures View() == WithLists(old(View()), incoming)
    {
      if |incoming.addresses| > 0 {
        addresses := AppendUnique(addresses, incoming.addresses, AddressKey);
      }
      addresses := KeepTail(addresses, MAX_ADDRESSES);
      if |incoming.contacts| > 0 {
        contacts := AppendUnique(contacts, incoming.contacts, ContactKey);
      }
    }

    method MergeStamps(observedAt: Time, incoming: Data)
      modifies this
      ensures View() == WithStamps(old(View()), observedAt, incoming)
    {
      lastFoundAt := Some(observedAt);
      if firstFoundAt.None? {
        firstFoundAt := incoming.firstFoundAt;
      }
      if firstFoundAt.None? {
        firstFoundAt := Some(observedAt);
      }
      if incoming.evictedAt.Some? {
        evictedAt := incoming.evictedAt;
      }
    }

    method MergeIncoming(observedAt: Time, incoming: Data)
      modifies this
      ensures View() == MergeOne(old(View()), observedAt, incoming)
    {
      MergeIdentity(incoming);
      MergeLists(incoming);
      MergeStamps(observedAt, incoming);
    }
  }

  method MergeOffer(current: Option<Data>, incoming: Data, observedAt: Time) returns (result: Offer)
    ensures fresh(result) && result.View() == Merged(current, incoming, observedAt)
  {
    result := new Offer();
    if current.Some? {
      result.MergeIncoming(observedAt, current.value);
    }
    result.MergeIncoming(observedAt, incoming);
    result.evictedAt := None;
  }

  ghost predicate Tidy(p: Data) {
    && NoDuplicates(p.uids)
    && Normal(p.addresses, AddressKey, MAX_ADDRESSES)
    && DistinctKeys(p.contacts, ContactKey)
  }

  lemma MergeOneTidy(p: Data, stamp: Time, incoming: Data)
    requires Tidy(p)
    ensures Tidy(MergeOne(p, stamp, incoming))
  {
    UniqueStringsElements(p.uids + incoming.uids, false);
    AppendIsNormal(p.addresses, incoming.addresses, AddressKey, MAX_ADDRESSES);
    UniqueKeys(p.contacts + incoming.contacts, ContactKey);
  }

  ghost function ContactKeys(p: Data): set<string> {
    Keys(p.contacts, ContactKey)
  }

  ghost function UIDsOf(current: Option<Data>): set<string> {
    if current.Some? then Strings(current.value.uids) else {}
  }

  ghost function ContactsOf(current: Option<Data>): set<string> {
    if current.Some? then ContactKeys(current.value) else {}
  }

  lemma MergeOneKeepsAll(p: Data, stamp: Time, incoming: Data)
    ensures Strings(MergeOne(p, stamp, incoming).uids) == Strings(p.uids) + Strings(incoming.uids)
    ensures ContactKeys(MergeOne(p, stamp, incoming)) == ContactKeys(p) + ContactKeys(incoming)
  {
    GrowStrings(p.uids, incoming.uids);
    KeysConcat(p.contacts, incoming.contacts);
  }

  /** Deduplicating two lists loses no key and invents none. */
  lemma KeysConcat(a: seq<Contact>, b: seq<Contact>)
    ensures Keys(Unique(a + b, ContactKey), ContactKey) == Keys(a, ContactKey) + Keys(b, ContactKey)
    ensures b == [] ==> Keys(b, ContactKey) == {}
  {
    UniqueKeys(a + b, ContactKey);
    forall k
      ensures k in Keys(Unique(a + b, ContactKey), ContactKey) <==> k in Keys(a, ContactKey) + Keys(b, ContactKey)
    {
      HasKeyIffInKeys(Unique(a + b, ContactKey), ContactKey, k);
      HasKeyConcat(a, b, ContactKey, k);
      HasKeyIffInKeys(a, ContactKey, k);
      HasKeyIffInKeys(b, ContactKey, k);
    }
  }

  /** A stored offer that is tidy goes into the merge as it is, so the addresses are the capped history. */
  lemma MergedAddresses(p: Data, incoming: Data, stamp: Time)
    requires Tidy(p)
    ensures Merged(Some(p), incoming, stamp).addresses == Append(p.addresses, incoming.addresses, AddressKey, MAX_ADDRESSES)
  {
    AppendToEmpty(p.addresses, AddressKey, MAX_ADDRESSES);
  }

  /** No identifier and no contact is lost or invented. */
  lemma MergedKeepsAll(current: Option<Data>, incoming: Data, stamp: Time)
    ensures Strings(Merged(current, incoming, stamp).uids) == UIDsOf(current) + Strings(incoming.uids)
    ensures ContactKeys(Merged(current, incoming, stamp)) == ContactsOf(current) + ContactKeys(incoming)
  {
    var base := if current.Some? then MergeOne(EMPTY, stamp, current.value) else EMPTY;
    assert Strings(EMPTY.uids) == {} && ContactKeys(EMPTY) == {};
    if current.Some? {
      MergeOneKeepsAll(EMPTY, stamp, current.value);
    }
    MergeOneKeepsAll(base, stamp, incoming);
  }

  /** What one merge guarantees, whatever the stored offer looked like. */
  lemma MergedIsSound(current: Option<Data>, incoming: Data, stamp: Time)
    ensures var r := Merged(current, incoming, stamp);
            && Tidy(r) && r.evictedAt == None && r.lastFoundAt == Some(stamp) && r.firstFoundAt.Some?
            && (current.Some? && current.value.firstFoundAt.Some? ==> r.firstFoundAt == current.value.firstFoundAt)
    ensures Strings(Merged(current, incoming, stamp).uids) == UIDsOf(current) + Strings(incoming.uids)
    ensures ContactKeys(Merged(current, incoming, stamp)) == ContactsOf(current) + ContactKeys(incoming)
  {
    MergedKeepsAll(current, incoming, stamp);
    var base := if current.Some? then MergeOne(EMPTY, stamp, current.value) else EMPTY;
    if current.Some? {
      MergeOneTidy(EMPTY, stamp, current.value);
    }
    MergeOneTidy(base, stamp, incoming);
  }

  // ---- one merge, field by field --------------------------------------------------

  /** The stored offer, or an empty one. */
  ghost function StoredOf(current: Option<Data>): Data {
    if current.Some? then current.value else EMPTY
  }

  /** Every list is the stored one followed by the incoming one, with one item for every key; the last
      10 addresses are kept. */
  lemma MergedLists(current: Option<Data>, incoming: Data, stamp: Time)
    ensures var r, s := Merged(current, incoming, stamp), StoredOf(current);
            && r.uids == Unique(s.uids + incoming.uids, Itself)
            && r.contacts == Unique(s.contacts + incoming.contacts, ContactKey)
            && r.addresses == KeepTail(Unique(KeepTail(Unique(s.addresses, AddressKey), 10) + incoming.addresses, AddressKey), 10)
  {
    var s := StoredOf(current);
    ListsOfMerge(current, incoming, stamp);
    GrownList(s.uids, incoming.uids);
    GrownContacts(s.contacts, incoming.contacts);
    StoredThenIncoming(s.addresses, incoming.addresses, AddressKey, MAX_ADDRESSES);
  }

  /** The contacts of an offer after one more. */
  ghost function GrowContacts(current: seq<Contact>, incoming: seq<Contact>): seq<Contact> {
    if incoming != [] then Unique(current + incoming, ContactKey) else current
  }

  lemma ListsOfMerge(current: Option<Data>, incoming: Data, stamp: Time)
    ensures var r, s := Merged(current, incoming, stamp), StoredOf(current);
            && r.uids == Grow(Grow([], s.uids), incoming.uids)
            && r.contacts == GrowContacts(GrowContacts([], s.contacts), incoming.contacts)
            && r.addresses == Append(Append([], s.addresses, AddressKey, MAX_ADDRESSES), incoming.addresses, AddressKey, MAX_ADDRESSES)
  {
  }

  lemma GrownList(stored: seq<string>, incoming: seq<string>)
    ensures Grow(Grow([], stored), incoming) == Unique(stored + incoming, Itself)
  {
    UniqueLeft(stored, incoming, Itself);
    assert [] + stored == stored;
    if incoming == [] {
      assert stored + incoming == stored;
    }
  }

  lemma GrownContacts(stored: seq<Contact>, incoming: seq<Contact>)
    ensures GrowContacts(GrowContacts([], stored), incoming) == Unique(stored + incoming, ContactKey)
  {
    UniqueLeft(stored, incoming, ContactKey);
    assert [] + stored == stored;
    if incoming == [] {
      assert stored + incoming == stored;
    }
  }

  /** The current identifier is the incoming one if there is one. The first-found time is that of the
      stored offer, if there is one, and otherwise the incoming one; where the side asked has none it
      is the time of the merge. */
  lemma MergedIdentity(current: Option<Data>, incoming: Data, stamp: Time)
    ensures var r := Merged(current, incoming, stamp);
            var first := if current.Some? then current.value.firstFoundAt else incoming.firstFoundAt;
            && r.uid == (if incoming.uid != "" then incoming.uid else StoredOf(current).uid)
            && r.firstFoundAt == (if first.Some? then first else Some(stamp))
  {
  }

  // ---- what the joined keys cannot tell apart ----------------------------------------

  /** Two texts joined without a separator are equal exactly if one begins like the other and the
      rest moves over. */
  lemma SharedJoin(a: string, b: string, c: string, d: string)
    requires |a| <= |c|
    ensures a + b == c + d <==> a <= c && b == c[|a|..] + d
  {
    if a + b == c + d {
      assert a == (a + b)[..|a|] == (c + d)[..|a|] == c[..|a|];
      assert b == (a + b)[|a|..] == (c + d)[|a|..] == c[|a|..] + d;
    }
    if a <= c && b == c[|a|..] + d {
      assert c == a + c[|a|..];
      assert a + (c[|a|..] + d) == a + c[|a|..] + d;
    }
  }

  /** So different addresses, and different contacts, can be taken for the same. */
  lemma KeysShared(a: Address, b: Address, x: Contact, y: Contact)
    requires |a.raw| <= |b.raw| && |x.kind| <= |y.kind|
    ensures AddressKey(a) == AddressKey(b) <==> a.raw <= b.raw && a.country == b.raw[|a.raw|..] + b.country
    ensures ContactKey(x) == ContactKey(y) <==> x.kind <= y.kind && x.value == y.kind[|x.kind|..] + y.value
  {
    SharedJoin(a.raw, a.country, b.raw, b.country);
    SharedJoin(x.kind, x.value, y.kind, y.value);
  }

  datatype Delivery = Delivery(incoming: Data, stamp: Time)

  ghost predicate IsHistory(states: seq<Option<Data>>, deliveries: seq<Delivery>) {
    && |states| == |deliveries| + 1
    && forall i :: 0 <= i < |deliveries| ==>
         states[i + 1] == Some(Merged(states[i], deliveries[i].incoming, deliveries[i].stamp))
  }

  lemma HistoryStep(states: seq<Option<Data>>, deliveries: seq<Delivery>, i: nat)
    requires IsHistory(states, deliveries) && i < |deliveries|
    ensures states[i + 1].Some? && Tidy(states[i + 1].value) && states[i + 1].value.evictedAt == None
    ensures states[i + 1].value.firstFoundAt.Some?
    ensures states[i].Some? && states[i].value.firstFoundAt.Some? ==>
              states[i + 1].value.firstFoundAt == states[i].value.firstFoundAt
  {
    MergedIsSound(states[i], deliveries[i].incoming, deliveries[i].stamp);
  }

  /** Every merge of every sequence leaves unique lists within their limits, and the
      first-found time never changes after the first merge. */
  lemma {:induction false} EverySequenceSound(states: seq<Option<Data>>, deliveries: seq<Delivery>, i: nat, j: nat)
    requires IsHistory(states, deliveries) && 0 < i <= j < |states|
    ensures states[i].Some? && states[j].Some?
    ensures Tidy(states[j].value) && states[j].value.evictedAt == None
    ensures states[i].value.firstFoundAt.Some? && states[j].value.firstFoundAt == states[i].value.firstFoundAt
    decreases j
  {
    HistoryStep(states, deliveries, j - 1);
    if i < j {
      EverySequenceSound(states, deliveries, i, j - 1);
    }
  }

  // ---- what the lists hold -------------------------------------------------------

  ghost function IncomingUIDs(deliveries: seq<Delivery>): seq<set<string>> {
    seq(|deliveries|, i requires 0 <= i < |deliveries| => Strings(deliveries[i].incoming.uids))
  }

  ghost function IncomingContacts(deliveries: seq<Delivery>): seq<set<string>> {
    seq(|deliveries|, i requires 0 <= i < |deliveries| => ContactKeys(deliveries[i].incoming))
  }

  /** After any deliveries the identifiers are exactly those of all the lists ever seen. */
  lemma UIDsAreSeen(states: seq<Option<Data>>, deliveries: seq<Delivery>, n: nat, s: string)
    requires IsHistory(states, deliveries) && 0 < n < |states|
    ensures states[n].Some?
    ensures s in states[n].value.uids <==> Seen(UIDsOf(states[0]), IncomingUIDs(deliveries), n, s)
  {
    HistoryStep(states, deliveries, n - 1);
    var sets := seq(|states|, i requires 0 <= i < |states| => UIDsOf(states[i]));
    forall i | 0 <= i < |deliveries|
      ensures sets[i + 1] == sets[i] + IncomingUIDs(deliveries)[i]
    {
      MergedIsSound(states[i], deliveries[i].incoming, deliveries[i].stamp);
    }
    UnionChain(sets, IncomingUIDs(deliveries), n, s);
  }

  /** And the contacts are exactly, by key, those ever seen. */
  lemma ContactsAreSeen(states: seq<Option<Data>>, deliveries: seq<Delivery>, n: nat, k: string)
    requires IsHistory(states, deliveries) && 0 < n < |states|
    ensures states[n].Some?
    ensures HasKey(states[n].value.contacts, ContactKey, k) <==> Seen(ContactsOf(states[0]), IncomingContacts(deliveries), n, k)
  {
    HistoryStep(states, deliveries, n - 1);
    var sets := seq(|states|, i requires 0 <= i < |states| => ContactsOf(states[i]));
    forall i | 0 <= i < |deliveries|
      ensures sets[i + 1] == sets[i] + IncomingContacts(deliveries)[i]
    {
      MergedIsSound(states[i], deliveries[i].incoming, deliveries[i].stamp);
    }
    UnionChain(sets, IncomingContacts(deliveries), n, k);
    HasKeyIffInKeys(states[n].value.contacts, ContactKey, k);
  }

  /** The last identifier that was not empty, or the stored one. */
  ghost function LastUID(start: Option<Data>, deliveries: seq<Delivery>, n: nat): string
    requires n <= |deliveries|
  {
    if n == 0 then (if start.Some? then start.value.uid else "")
    else if deliveries[n - 1].incoming.uid != "" then deliveries[n - 1].incoming.uid
    else LastUID(start, deliveries, n - 1)
  }

  lemma {:induction false} CurrentUIDIsLast(states: seq<Option<Data>>, deliveries: seq<Delivery>, n: nat)
    requires IsHistory(states, deliveries) && 0 < n < |states|
    ensures states[n].Some? && states[n].value.uid == LastUID(states[0], deliveries, n)
  {
    assert states[n - 1 + 1] == Some(Merged(states[n - 1], deliveries[n - 1].incoming, deliveries[n - 1].stamp));
    if n > 1 {
      CurrentUIDIsLast(states, deliveries, n - 1);
    }
  }

  /** Unlike a product, an offer lists its own identifier exactly if some list that it has seen did. */
  lemma CurrentUIDListedIff(states: seq<Option<Data>>, deliveries: seq<Delivery>, n: nat)
    requires IsHistory(states, deliveries) && 0 < n < |states|
    ensures states[n].Some?
    ensures states[n].value.uid in states[n].value.uids <==>
            Seen(UIDsOf(states[0]), IncomingUIDs(deliveries), n, LastUID(states[0], deliveries, n))
  {
    CurrentUIDIsLast(states, deliveries, n);
    UIDsAreSeen(states, deliveries, n, states[n].value.uid);
  }

  /** An offer with an identifier and no list of them, and one that lists the empty string. */
  lemma CurrentUIDMayBeMissing(uid: string, stamp: Time)
    ensures var r := Merged(None, EMPTY.(uid := uid), stamp); r.uid == uid && r.uids == []
    ensures "" in Merged(None, EMPTY.(uids := [""]), stamp).uids
  {
    UniqueStringsElements([] + [""], false);
    assert [] + [""] == [""];
    assert "" in [""];
  }

  // ---- replaying one offer -------------------------------------------------------

  ghost predicate IsOfferReplay(states: seq<Data>, incoming: Data, stamps: seq<Time>) {
    && |states| == |stamps| + 1
    && forall i :: 0 <= i < |stamps| ==> states[i + 1] == Merged(Some(states[i]), incoming, stamps[i])
  }

  lemma AddressLists(states: seq<Data>, incoming: Data, stamps: seq<Time>) returns (lists: seq<seq<Address>>)
    requires IsOfferReplay(states, incoming, stamps)
    ensures |lists| == |states| && forall i :: 0 <= i < |states| ==> lists[i] == states[i].addresses
    ensures IsStoredReplay(lists, incoming.addresses, AddressKey, MAX_ADDRESSES)
  {
    lists := seq(|states|, i requires 0 <= i < |states| => states[i].addresses);
    forall i | 0 <= i < |stamps|
      ensures lists[i + 1] ==
              Append(Append([], lists[i], AddressKey, MAX_ADDRESSES), incoming.addresses, AddressKey, MAX_ADDRESSES)
    {
      assert states[i + 1] == Merged(Some(states[i]), incoming, stamps[i]);
    }
  }

  /** From the tenth delivery on, another delivery of one offer leaves its addresses alone if and
      only if it has at most 10 distinct address keys. */
  lemma AddressesSettleIff(states: seq<Data>, incoming: Data, stamps: seq<Time>, i: nat)
    requires IsOfferReplay(states, incoming, stamps) && MAX_ADDRESSES <= i < |states| - 1
    ensures states[i + 1].addresses == states[i].addresses <==> |Keys(incoming.addresses, AddressKey)| <= MAX_ADDRESSES
  {
    var lists := AddressLists(states, incoming, stamps);
    StoredSettlesIff(lists, incoming.addresses, AddressKey, MAX_ADDRESSES, i);
  }

  /** With more, every delivery changes them, the first included. */
  lemma TooManyAddressesNeverSettle(states: seq<Data>, incoming: Data, stamps: seq<Time>, i: nat)
    requires IsOfferReplay(states, incoming, stamps) && i < |states| - 1
    requires |Keys(incoming.addresses, AddressKey)| > MAX_ADDRESSES
    ensures states[i + 1].addresses != states[i].addresses
  {
    var lists := AddressLists(states, incoming, stamps);
    StoredNeverSettles(lists, incoming.addresses, AddressKey, MAX_ADDRESSES, i);
  }
}
