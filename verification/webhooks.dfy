/** Webhook ingestion: replayed customer messages, and delivery receipts in any order. */
module InboundMessages {
  import opened Bytes
  import opened Wrappers
  import opened ConversationSla

  const SERVICE_WINDOW_MS: int := 24 * 60 * 60 * 1000

  datatype Message = Message(id: string, phone: string, sender: string, at: int, minutes: Option<nat>)

  datatype Contact = Contact(lastInboundAt: Option<int>, serviceWindowExpiresAt: Option<int>)

  datatype Thread = Thread(sender: string, phone: string)

  datatype Store = Store(seen: set<string>, contacts: map<string, Contact>, conversations: map<Thread, Row>)

  function Touched(contact: Option<Contact>, at: int): Contact
  {
    if contact.Some? && contact.value.lastInboundAt.Some? && contact.value.lastInboundAt.value >= at then contact.value
    else Contact(Some(at), Some(at + SERVICE_WINDOW_MS))
  }

  function Find<K, V>(m: map<K, V>, k: K): Option<V>
  {
    if k in m then Some(m[k]) else None
  }

  /** One committed transaction of `persistInboundMessage`; a known provider id changes nothing. */
  function Handle(s: Store, m: Message): Store
  {
    if m.id in s.seen then s
    else
      var thread := Thread(m.sender, m.phone);
      Store(
        s.seen + {m.id},
        s.contacts[m.phone := Touched(Find(s.contacts, m.phone), m.at)],
        s.conversations[thread := AfterInbound(Find(s.conversations, thread), m.at, m.minutes)])
  }

  class InboundStore {
    var seen: set<string>
    var contacts: map<string, Contact>
    var conversations: map<Thread, Row>

    function Value(): Store
      reads this
    {
      Store(seen, contacts, conversations)
    }

    /** `persistInboundMessage`: duplicate check, contact upsert, window update, conversation, message row. */
    method PersistInboundMessage(m: Message)
      modifies this
      ensures Value() == Handle(old(Value()), m)
    {
      if m.id in seen {
        return;
      }
      var expires := m.at + SERVICE_WINDOW_MS;
      if m.phone !in contacts {
        contacts := contacts[m.phone := Contact(Some(m.at), Some(expires))];
      }
      var contact := contacts[m.phone];
      if contact.lastInboundAt == None || contact.lastInboundAt.value < m.at {
        contacts := contacts[m.phone := Contact(Some(m.at), Some(expires))];
      }
      var thread := Thread(m.sender, m.phone);
      conversations := conversations[thread := AfterInbound(Find(conversations, thread), m.at, m.minutes)];
      seen := seen + {m.id};
    }

    /** The messages of one change; an error ends the webhook and leaves what was stored before it. */
    method ProcessChange(senders: map<string, string>, change: Change) returns (ok: bool)
      modifies this
      ensures ok <==> Refuse !in Items(senders, change)
      ensures Value() == HandleAll(old(Value()), Accepted(Items(senders, change)))
    {
      var messages := Extracted(change.incoming);
      if |messages| == 0 {
        return true;
      }
      if change.numberId == None || change.numberId.value !in senders {
        return false;
      }
      var sender := senders[change.numberId.value];
      ghost var items := Items(senders, change);
      NothingAccepted(Value());
      for i := 0 to |messages|
        invariant Refuse !in items[..i] && Value() == HandleAll(old(Value()), Accepted(items[..i]))
      {
        hide Handle, Items, Accepted, HandleAll;
        ItemAt(senders, change, i);
        NextItem(old(Value()), items, i);
        if messages[i].author.Malformed? {
          return false;
        }
        PersistInboundMessage(MessageOf(sender, messages[i]));
      }
      assert items[..|messages|] == items;
      return true;
    }

    method ProcessEntry(senders: map<string, string>, changes: seq<Change>) returns (ok: bool)
      modifies this
      ensures ok <==> Refuse !in AllItems(senders, changes)
      ensures Value() == HandleAll(old(Value()), Accepted(AllItems(senders, changes)))
    {
      hide Handle, Accepted, HandleAll;
      NothingAccepted(Value());
      for i := 0 to |changes|
        invariant Refuse !in AllItems(senders, changes[..i])
        invariant Value() == HandleAll(old(Value()), Accepted(AllItems(senders, changes[..i])))
      {
        ItemsSplit(senders, changes, i);
        HandleMore(old(Value()), AllItems(senders, changes[..i]), Items(senders, changes[i]));
        AcceptedAppend(AllItems(senders, changes[..i + 1]), AllItems(senders, changes[i + 1..]));
        ok := ProcessChange(senders, changes[i]);
        if !ok {
          return;
        }
      }
      assert changes[..|changes|] == changes;
      return true;
    }

    /** `process`: every entry in turn, every change in it, every message in that. */
    method Process(senders: map<string, string>, entries: seq<seq<Change>>) returns (ok: bool)
      modifies this
      ensures ok <==> Refuse !in AllItems(senders, Flatten(entries))
      ensures Value() == HandleAll(old(Value()), Accepted(AllItems(senders, Flatten(entries))))
    {
      hide Handle, Accepted, HandleAll, AllItems;
      NothingAccepted(Value());
      NoChanges(senders);
      for i := 0 to |entries|
        invariant Refuse !in AllItems(senders, Flatten(entries[..i]))
        invariant Value() == HandleAll(old(Value()), Accepted(AllItems(senders, Flatten(entries[..i]))))
      {
        EntriesSplit(senders, entries, i);
        HandleMore(old(Value()), AllItems(senders, Flatten(entries[..i])), AllItems(senders, entries[i]));
        AcceptedAppend(AllItems(senders, Flatten(entries[..i + 1])), AllItems(senders, Flatten(entries[i + 1..])));
        ok := ProcessEntry(senders, entries[i]);
        if !ok {
          return;
        }
      }
      assert entries[..|entries|] == entries;
      return true;
    }
  }

  function HandleAll(s: Store, messages: seq<Message>): Store
  {
    if messages == [] then s else Handle(HandleAll(s, messages[..|messages| - 1]), messages[|messages| - 1])
  }

  // ----- the shape of a webhook -----

  /** The `from` field: absent, not a phone number, or a normalised one. */
  datatype Author = Missing | Malformed | Phone(number: string)

  datatype Incoming = Incoming(id: Option<string>, author: Author, at: int, minutes: Option<nat>)

  /** One change: the number it was sent to and its messages. A value of any other shape has none. */
  datatype Change = Change(numberId: Option<string>, incoming: seq<Incoming>)

  /** What a webhook makes the service do: store a message, or give up. */
  datatype Item = Keep(message: Message) | Refuse

  /** `extractMessages`: messages without an id or a sender are passed over. */
  function Extracted(incoming: seq<Incoming>): (messages: seq<Incoming>)
    ensures forall m :: m in messages ==> m in incoming && m.id.Some? && !m.author.Missing?
  {
    if incoming == [] then []
    else
      var rest := Extracted(incoming[1..]);
      if incoming[0].id.Some? && !incoming[0].author.Missing? then [incoming[0]] + rest else rest
  }

  function MessageOf(sender: string, m: Incoming): Message
    requires m.id.Some? && m.author.Phone?
  {
    Message(m.id.value, m.author.number, sender, m.at, m.minutes)
  }

  /** A change with messages must name a known number, and a malformed phone number is an error. */
  function Items(senders: map<string, string>, change: Change): seq<Item>
  {
    var messages := Extracted(change.incoming);
    if messages == [] then []
    else if change.numberId == None || change.numberId.value !in senders then [Refuse]
    else
      seq(|messages|, i requires 0 <= i < |messages| =>
        if messages[i].author.Malformed? then Refuse else Keep(MessageOf(senders[change.numberId.value], messages[i])))
  }

  function AllItems(senders: map<string, string>, changes: seq<Change>): seq<Item>
  {
    if changes == [] then [] else Items(senders, changes[0]) + AllItems(senders, changes[1..])
  }

  /** The messages before the first error. */
  function Accepted(items: seq<Item>): seq<Message>
  {
    if items == [] || items[0].Refuse? then [] else [items[0].message] + Accepted(items[1..])
  }

  lemma {:induction false} AcceptedAppend(a: seq<Item>, b: seq<Item>)
    ensures Accepted(a + b) == if Refuse in a then Accepted(a) else Accepted(a) + Accepted(b)
  {
    if a == [] {
      assert a + b == b;
    } else {
      assert (a + b)[0] == a[0] && (a + b)[1..] == a[1..] + b;
      assert Refuse in a <==> a[0] == Refuse || Refuse in a[1..];
      AcceptedAppend(a[1..], b);
    }
  }

  /** What is accepted are the messages up to the first error, and all of them if there is none. */
  lemma {:induction false} AcceptedExactly(items: seq<Item>)
    ensures var n := |Accepted(items)|;
            && n <= |items| && (forall i :: 0 <= i < n ==> items[i] == Keep(Accepted(items)[i]))
            && (n < |items| ==> items[n] == Refuse)
    decreases |items|
  {
    if items != [] && items[0].Keep? {
      AcceptedExactly(items[1..]);
      assert items == [items[0]] + items[1..];
    }
  }

  /** Messages are looked at one by one, in order. */
  lemma {:induction false} ExtractedInOrder(a: seq<Incoming>, b: seq<Incoming>)
    ensures Extracted(a + b) == Extracted(a) + Extracted(b)
    decreases |a|
  {
    if a == [] {
      assert a + b == b;
    } else {
      assert (a + b)[0] == a[0] && (a + b)[1..] == a[1..] + b;
      ExtractedInOrder(a[1..], b);
    }
  }

  /** A message without id or sender is passed over, an unknown number or a malformed sender is an error. */
  lemma OneMessage(senders: map<string, string>, numberId: Option<string>, m: Incoming)
    ensures Items(senders, Change(numberId, [m])) ==
            if m.id == None || m.author == Missing then []
            else if numberId == None || numberId.value !in senders || m.author == Malformed then [Refuse]
            else [Keep(Message(m.id.value, m.author.number, senders[numberId.value], m.at, m.minutes))]
  {
    assert Extracted([m]) == (if m.id.Some? && !m.author.Missing? then [m] else []) by {
      assert [m][1..] == [] && Extracted([]) == [];
    }
  }

  lemma KnownNumber(senders: map<string, string>, change: Change)
    requires change.numberId.Some? && change.numberId.value in senders
    ensures var messages, items := Extracted(change.incoming), Items(senders, change);
            && |items| == |messages|
            && forall i :: 0 <= i < |items| ==>
                 items[i] == if messages[i].author.Malformed? then Refuse
                             else Keep(MessageOf(senders[change.numberId.value], messages[i]))
  {
    hide Extracted;
  }

  /** The messages of one change are treated alike; an unknown number is one error for all of them. */
  lemma ManyMessages(senders: map<string, string>, numberId: Option<string>, a: seq<Incoming>, b: seq<Incoming>)
    ensures var whole, first, second :=
              Items(senders, Change(numberId, a + b)), Items(senders, Change(numberId, a)), Items(senders, Change(numberId, b));
            if numberId.Some? && numberId.value in senders then whole == first + second
            else whole == if first + second == [] then [] else [Refuse]
  {
    hide Extracted;
    ExtractedInOrder(a, b);
    if numberId.Some? && numberId.value in senders {
      KnownNumber(senders, Change(numberId, a + b));
      KnownNumber(senders, Change(numberId, a));
      KnownNumber(senders, Change(numberId, b));
      hide Items;
    }
  }

  lemma {:induction false} HandleAllAppend(s: Store, a: seq<Message>, b: seq<Message>)
    ensures HandleAll(s, a + b) == HandleAll(HandleAll(s, a), b)
    decreases |b|
  {
    hide Handle;
    if b == [] {
      assert a + b == a;
    } else {
      var n := |b| - 1;
      assert (a + b)[..|a + b| - 1] == a + b[..n];
      HandleAllAppend(s, a, b[..n]);
    }
  }

  lemma HandleMore(s: Store, a: seq<Item>, b: seq<Item>)
    requires Refuse !in a
    ensures HandleAll(HandleAll(s, Accepted(a)), Accepted(b)) == HandleAll(s, Accepted(a + b))
  {
    hide HandleAll, Accepted;
    AcceptedAppend(a, b);
    HandleAllAppend(s, Accepted(a), Accepted(b));
  }

  lemma ItemAt(senders: map<string, string>, change: Change, i: nat)
    requires i < |Extracted(change.incoming)| && change.numberId.Some? && change.numberId.value in senders
    ensures var messages, items := Extracted(change.incoming), Items(senders, change);
            && |items| == |messages|
            && items[i] == if messages[i].author.Malformed? then Refuse
                           else Keep(MessageOf(senders[change.numberId.value], messages[i]))
  {
  }

  lemma NextItem(s: Store, items: seq<Item>, i: nat)
    requires i < |items| && Refuse !in items[..i]
    ensures if items[i].Refuse? then Refuse in items && Accepted(items) == Accepted(items[..i])
            else HandleAll(s, Accepted(items[..i + 1])) == Handle(HandleAll(s, Accepted(items[..i])), items[i].message)
  {
    hide Handle;
    if items[i].Refuse? {
      assert items == items[..i] + items[i..] && items[i..][0] == Refuse;
      AcceptedAppend(items[..i], items[i..]);
    } else {
      var m := items[i].message;
      assert items[..i + 1] == items[..i] + [items[i]] && [items[i]][1..] == [];
      HandleMore(s, items[..i], [items[i]]);
      assert [m][..0] == [];
      assert Accepted([items[i]]) == [m];
    }
  }

  lemma NothingAccepted(s: Store)
    ensures HandleAll(s, Accepted([])) == s
  {
  }

  lemma NoChanges(senders: map<string, string>)
    ensures AllItems(senders, Flatten<Change>([])) == []
  {
  }

  lemma {:induction false} AllItemsAppend(senders: map<string, string>, a: seq<Change>, b: seq<Change>)
    ensures AllItems(senders, a + b) == AllItems(senders, a) + AllItems(senders, b)
  {
    hide Items;
    if a == [] {
      assert a + b == b;
    } else {
      assert (a + b)[1..] == a[1..] + b;
      AllItemsAppend(senders, a[1..], b);
    }
  }

  lemma ItemsSplit(senders: map<string, string>, changes: seq<Change>, i: nat)
    requires i < |changes|
    ensures AllItems(senders, changes[..i + 1]) == AllItems(senders, changes[..i]) + Items(senders, changes[i])
    ensures AllItems(senders, changes) == AllItems(senders, changes[..i + 1]) + AllItems(senders, changes[i + 1..])
  {
    hide Items;
    assert changes[..i + 1] == changes[..i] + [changes[i]];
    AllItemsAppend(senders, changes[..i], [changes[i]]);
    assert [changes[i]][1..] == [];
    assert changes == changes[..i + 1] + changes[i + 1..];
    AllItemsAppend(senders, changes[..i + 1], changes[i + 1..]);
  }

  lemma EntriesSplit(senders: map<string, string>, entries: seq<seq<Change>>, i: nat)
    requires i < |entries|
    ensures AllItems(senders, Flatten(entries[..i + 1]))
         == AllItems(senders, Flatten(entries[..i])) + AllItems(senders, entries[i])
    ensures AllItems(senders, Flatten(entries))
         == AllItems(senders, Flatten(entries[..i + 1])) + AllItems(senders, Flatten(entries[i + 1..]))
  {
    hide AllItems;
    assert entries[..i + 1] == entries[..i] + [entries[i]];
    FlattenAppend(entries[..i], [entries[i]]);
    assert Flatten([entries[i]]) == entries[i];
    AllItemsAppend(senders, Flatten(entries[..i]), entries[i]);
    assert entries == entries[..i + 1] + entries[i + 1..];
    FlattenAppend(entries[..i + 1], entries[i + 1..]);
    AllItemsAppend(senders, Flatten(entries[..i + 1]), Flatten(entries[i + 1..]));
  }

  /** A delivery attempt: one whose transaction failed or was rolled back by a concurrent duplicate leaves nothing. */
  datatype Attempt = Attempt(message: Message, committed: bool)

  function Deliver(s: Store, attempts: seq<Attempt>): Store
  {
    if attempts == [] then s
    else
      var last, before := attempts[|attempts| - 1], Deliver(s, attempts[..|attempts| - 1]);
      if last.committed then Handle(before, last.message) else before
  }

  /** The messages whose provider id commits for the first time, in that order. */
  function FirstArrivals(known: set<string>, attempts: seq<Attempt>): seq<Message>
  {
    if attempts == [] then []
    else
      var last, before := attempts[|attempts| - 1], FirstArrivals(known, attempts[..|attempts| - 1]);
      if last.committed && last.message.id !in known + Ids(before) then before + [last.message] else before
  }

  function Ids(messages: seq<Message>): set<string>
  {
    set m | m in messages :: m.id
  }

  /** Any at-least-once replay has the effect of handling every new provider id once, in first-arrival order. */
  lemma {:induction false} ReplayIsFirstArrivals(s: Store, attempts: seq<Attempt>)
    ensures Deliver(s, attempts) == HandleAll(s, FirstArrivals(s.seen, attempts))
    ensures Deliver(s, attempts).seen == s.seen + Ids(FirstArrivals(s.seen, attempts))
    decreases |attempts|
  {
    hide Touched, AfterInbound;
    if attempts != [] {
      var init, last := attempts[..|attempts| - 1], attempts[|attempts| - 1];
      var firsts := FirstArrivals(s.seen, init);
      ReplayIsFirstArrivals(s, init);
      assert (firsts + [last.message])[..|firsts|] == firsts;
      assert Ids(firsts + [last.message]) == Ids(firsts) + {last.message.id};
    }
  }

  lemma {:induction false} FirstArrivalsAreDistinct(known: set<string>, attempts: seq<Attempt>)
    ensures var f := FirstArrivals(known, attempts);
            && (forall i, j :: 0 <= i < j < |f| ==> f[i].id != f[j].id)
            && (forall m :: m in f ==> m.id !in known && Attempt(m, true) in attempts)
    decreases |attempts|
  {
    if attempts != [] {
      var init, last := attempts[..|attempts| - 1], attempts[|attempts| - 1];
      FirstArrivalsAreDistinct(known, init);
      assert attempts == init + [last];
      assert forall m :: m in FirstArrivals(known, init) ==> m.id in Ids(FirstArrivals(known, init));
    }
  }

  // ----- unread counts and service windows -----

  function UnreadAfter(s: Store, thread: Thread): nat
  {
    if thread in s.conversations then s.conversations[thread].unreadCount else 0
  }

  function CountFor(messages: seq<Message>, thread: Thread): nat
  {
    if messages == [] then 0
    else
      var last := messages[|messages| - 1];
      CountFor(messages[..|messages| - 1], thread) + if Thread(last.sender, last.phone) == thread then 1 else 0
  }

  predicate AllNew(s: Store, messages: seq<Message>)
  {
    && (forall m :: m in messages ==> m.id !in s.seen)
    && (forall i, j :: 0 <= i < j < |messages| ==> messages[i].id != messages[j].id)
  }

  lemma UnreadStep(s: Store, m: Message, thread: Thread)
    requires m.id !in s.seen
    ensures Handle(s, m).seen == s.seen + {m.id}
    ensures UnreadAfter(Handle(s, m), thread) == UnreadAfter(s, thread) + if Thread(m.sender, m.phone) == thread then 1 else 0
  {
    hide Touched;
  }

  lemma {:induction false} UnreadCounts(s: Store, messages: seq<Message>, thread: Thread)
    requires AllNew(s, messages)
    ensures HandleAll(s, messages).seen == s.seen + Ids(messages)
    ensures UnreadAfter(HandleAll(s, messages), thread) == UnreadAfter(s, thread) + CountFor(messages, thread)
    decreases |messages|
  {
    hide Handle, UnreadAfter;
    if messages != [] {
      var init, last := messages[..|messages| - 1], messages[|messages| - 1];
      assert messages == init + [last];
      UnreadCounts(s, init, thread);
      LastIsNew(init, last);
      assert Ids(messages) == Ids(init) + {last.id};
      UnreadStep(HandleAll(s, init), last, thread);
    }
  }

  lemma LastIsNew(init: seq<Message>, last: Message)
    requires forall i, j :: 0 <= i < j < |init + [last]| ==> (init + [last])[i].id != (init + [last])[j].id
    ensures last.id !in Ids(init)
  {
    forall m | m in init
      ensures m.id != last.id
    {
      var k :| 0 <= k < |init| && init[k] == m;
      assert (init + [last])[k] == m && (init + [last])[|init|] == last;
    }
  }

  /** However often its messages are replayed, a conversation's unread count grows once per provider id. */
  lemma ReplaysDoNotAddUnread(s: Store, attempts: seq<Attempt>, thread: Thread)
    ensures UnreadAfter(Deliver(s, attempts), thread)
         == UnreadAfter(s, thread) + CountFor(FirstArrivals(s.seen, attempts), thread)
  {
    hide Deliver, FirstArrivals, HandleAll, UnreadAfter, CountFor;
    ReplayIsFirstArrivals(s, attempts);
    FirstArrivalsAreDistinct(s.seen, attempts);
    UnreadCounts(s, FirstArrivals(s.seen, attempts), thread);
  }

  /** The latest time among the messages from one phone. */
  ghost predicate IsLatest(at: Option<int>, messages: seq<Message>, phone: string)
  {
    match at
    case None => forall m :: m in messages ==> m.phone != phone
    case Some(t) =>
      && (exists m :: m in messages && m.phone == phone && m.at == t)
      && (forall m :: m in messages && m.phone == phone ==> m.at <= t)
  }

  function LastFrom(s: Store, phone: string): Option<int>
  {
    if phone in s.contacts then s.contacts[phone].lastInboundAt else None
  }

  lemma TouchStep(s: Store, m: Message, phone: string)
    requires m.id !in s.seen
    ensures LastFrom(Handle(s, m), phone)
         == if m.phone != phone then LastFrom(s, phone)
            else if LastFrom(s, phone).Some? && LastFrom(s, phone).value >= m.at then LastFrom(s, phone)
            else Some(m.at)
  {
    hide AfterInbound;
  }

  lemma OneMoreLatest(at: Option<int>, messages: seq<Message>, m: Message, phone: string)
    requires IsLatest(at, messages, phone)
    ensures IsLatest(if m.phone != phone then at else if at.Some? && at.value >= m.at then at else Some(m.at), messages + [m], phone)
  {
    var all := messages + [m];
    assert forall x :: x in all <==> x in messages || x == m;
    if at.Some? {
      var w :| w in messages && w.phone == phone && w.at == at.value;
      assert w in all;
    }
    assert m in all;
  }

  /** Whatever order its messages arrive in, a contact's last inbound time is the latest of them. */
  lemma {:induction false} LastInboundIsLatest(messages: seq<Message>, phone: string)
    requires forall i, j :: 0 <= i < j < |messages| ==> messages[i].id != messages[j].id
    ensures IsLatest(LastFrom(HandleAll(Store({}, map[], map[]), messages), phone), messages, phone)
    decreases |messages|
  {
    hide Handle, LastFrom, IsLatest;
    var empty := Store({}, map[], map[]);
    if messages == [] {
      NobodyWrote(phone);
    } else {
      var init, last := messages[..|messages| - 1], messages[|messages| - 1];
      assert messages == init + [last];
      LastInboundIsLatest(init, phone);
      UnreadCounts(empty, init, Thread("", ""));
      LastIsNew(init, last);
      TouchStep(HandleAll(empty, init), last, phone);
      OneMoreLatest(LastFrom(HandleAll(empty, init), phone), init, last, phone);
    }
  }

  lemma NobodyWrote(phone: string)
    ensures IsLatest(LastFrom(Store({}, map[], map[]), phone), [], phone)
  {
  }

  /** The window closes 24 hours after the last customer message, once there has been one. */
  ghost predicate WindowsFollow(s: Store)
  {
    forall phone :: phone in s.contacts ==>
      var c := s.contacts[phone];
      if c.lastInboundAt == None then c.serviceWindowExpiresAt == None
      else c.serviceWindowExpiresAt == Some(c.lastInboundAt.value + SERVICE_WINDOW_MS)
  }

  /** A new message opens its conversation, and moves contact time and window forward, 86,400,000 ms apart. */
  lemma NewMessageIsStored(s: Store, m: Message)
    requires m.id !in s.seen && WindowsFollow(s)
    ensures var t := Handle(s, m);
            var thread := Thread(m.sender, m.phone);
            && t.seen == s.seen + {m.id}
            && t.conversations.Keys == s.conversations.Keys + {thread} && t.conversations[thread].status == Open
            && (forall other :: other in s.conversations && other != thread ==> t.conversations[other] == s.conversations[other])
            && t.contacts.Keys == s.contacts.Keys + {m.phone}
            && (forall other :: other in s.contacts && other != m.phone ==> t.contacts[other] == s.contacts[other])
            && var c := t.contacts[m.phone];
               && c.lastInboundAt.Some? && c.lastInboundAt.value >= m.at
               && c.serviceWindowExpiresAt == Some(c.lastInboundAt.value + 86400000)
               && (c.lastInboundAt == Some(m.at) || (m.phone in s.contacts && c == s.contacts[m.phone]))
  {
    var phone := m.phone;
    assert phone in s.contacts ==> s.contacts[phone] == Find(s.contacts, phone).value;
  }

  /** A message whose id is known changes nothing. */
  lemma KnownMessageIsIgnored(s: Store, m: Message)
    requires m.id in s.seen
    ensures Handle(s, m) == s
  {
  }

  lemma {:induction false} WindowsAlwaysFollow(s: Store, attempts: seq<Attempt>)
    requires WindowsFollow(s)
    ensures WindowsFollow(Deliver(s, attempts))
    decreases |attempts|
  {
    hide AfterInbound;
    if attempts != [] {
      WindowsAlwaysFollow(s, attempts[..|attempts| - 1]);
    }
  }
}

module Receipts {
  import opened Wrappers
  import opened MessageRows

  /** `STATUS_RANK`; statuses without a rank count below all others. */
  function Rank(status: Status): int
  {
    match status
    case Created => 0
    case Queued => 1
    case Processing => 2
    case Submitted => 3
    case Sent => 4
    case Delivered => 5
    case Read => 6
    case _ => -1
  }

  predicate Ended(status: Status)
  {
    status.Failed? || status.Cancelled? || status.Expired?
  }

  predicate IsReceipt(status: Status)
  {
    status.Sent? || status.Delivered? || status.Read? || status.Failed?
  }

  predicate ShouldApply(current: Status, target: Status)
  {
    if target.Failed? then !current.Read? && !current.Delivered?
    else !Ended(current) && Rank(target) >= Rank(current)
  }

  function Next(current: Status, target: Status): Status
  {
    if ShouldApply(current, target) then target else current
  }

  function Final(current: Status, receipts: seq<Status>): Status
    decreases |receipts|
  {
    if receipts == [] then current else Final(Next(current, receipts[0]), receipts[1..])
  }

  class TrackedMessage {
    var status: Status
    var sentAt: Option<int>
    var deliveredAt: Option<int>
    var readAt: Option<int>
    var failedAt: Option<int>
    var events: seq<(Status, int)>

    /** `applyStatus`: the receipt is always recorded, the status only moves where it may. */
    method ApplyStatus(target: Status, at: int)
      requires IsReceipt(target)
      modifies this
      ensures status == Next(old(status), target)
      ensures events == old(events) + [(target, at)]
      ensures var applied := ShouldApply(old(status), target);
              && sentAt == (if applied && target.Sent? then Some(at) else old(sentAt))
              && deliveredAt == (if applied && target.Delivered? then Some(at) else old(deliveredAt))
              && readAt == (if applied && target.Read? then Some(at) else old(readAt))
              && failedAt == (if applied && target.Failed? then Some(at) else old(failedAt))
    {
      events := events + [(target, at)];
      if !ShouldApply(status, target) {
        return;
      }
      status := target;
      match target
      case Sent => sentAt := Some(at);
      case Delivered => deliveredAt := Some(at);
      case Read => readAt := Some(at);
      case Failed => failedAt := Some(at);
    }
  }

  function Max(a: int, b: int): int
  {
    if a > b then a else b
  }

  function Highest(rank: int, receipts: seq<Status>): int
    decreases |receipts|
  {
    if receipts == [] then rank else Highest(Max(rank, Rank(receipts[0])), receipts[1..])
  }

  lemma {:induction false} HighestIsReached(rank: int, receipts: seq<Status>)
    ensures Highest(rank, receipts) >= rank && forall r :: r in receipts ==> Highest(rank, receipts) >= Rank(r)
    ensures Highest(rank, receipts) == rank || exists r :: r in receipts && Highest(rank, receipts) == Rank(r)
    decreases |receipts|
  {
    if receipts != [] {
      HighestIsReached(Max(rank, Rank(receipts[0])), receipts[1..]);
      assert receipts == [receipts[0]] + receipts[1..];
    }
  }

  /** Receipts without a failure take a live message to the highest rank among them. */
  lemma {:induction false} EndsAtHighestRank(current: Status, receipts: seq<Status>)
    requires !Ended(current) && forall r :: r in receipts ==> IsReceipt(r) && !r.Failed?
    ensures !Ended(Final(current, receipts)) && Rank(Final(current, receipts)) == Highest(Rank(current), receipts)
    decreases |receipts|
  {
    if receipts != [] {
      EndsAtHighestRank(Next(current, receipts[0]), receipts[1..]);
    }
  }

  lemma RankIsInjective(a: Status, b: Status)
    requires !Ended(a) && !Ended(b) && Rank(a) == Rank(b)
    ensures a == b
  {
  }

  /** Order and repetition of failure-free receipts do not matter: only which ones arrived. */
  lemma OrderDoesNotMatter(current: Status, a: seq<Status>, b: seq<Status>)
    requires !Ended(current) && forall r :: r in a ==> IsReceipt(r) && !r.Failed?
    requires forall r :: r in a <==> r in b
    ensures Final(current, a) == Final(current, b)
  {
    hide Final, Rank, Highest;
    HighestIsReached(Rank(current), a);
    HighestIsReached(Rank(current), b);
    EndsAtHighestRank(current, a);
    EndsAtHighestRank(current, b);
    RankIsInjective(Final(current, a), Final(current, b));
  }

  predicate Settles(status: Status)
  {
    status.Delivered? || status.Read?
  }

  /** A failure that no delivery or read receipt precedes. */
  ghost predicate FailsFirst(receipts: seq<Status>)
  {
    exists i :: 0 <= i < |receipts| && receipts[i].Failed? && forall j :: 0 <= j < i ==> !Settles(receipts[j])
  }

  lemma FailsFirstStep(receipts: seq<Status>)
    requires receipts != []
    ensures FailsFirst(receipts) <==> receipts[0].Failed? || (!Settles(receipts[0]) && FailsFirst(receipts[1..]))
  {
    var rest := receipts[1..];
    if i :| 0 <= i < |receipts| && receipts[i].Failed? && forall j :: 0 <= j < i ==> !Settles(receipts[j]) {
      if i > 0 {
        assert rest[i - 1].Failed? && forall j :: 0 <= j < i - 1 ==> rest[j] == receipts[j + 1];
      }
    }
    if i :| 0 <= i < |rest| && rest[i].Failed? && forall j :: 0 <= j < i ==> !Settles(rest[j]) {
      assert receipts[i + 1].Failed? && forall j :: 1 <= j < i + 1 ==> receipts[j] == rest[j - 1];
    }
  }

  lemma {:induction false} SettledNeverFails(current: Status, receipts: seq<Status>)
    requires Settles(current) && forall r :: r in receipts ==> IsReceipt(r)
    ensures Settles(Final(current, receipts))
    decreases |receipts|
  {
    if receipts != [] {
      SettledNeverFails(Next(current, receipts[0]), receipts[1..]);
    }
  }

  lemma {:induction false} FailedStaysFailed(receipts: seq<Status>)
    requires forall r :: r in receipts ==> IsReceipt(r)
    ensures Final(Failed, receipts).Failed?
    decreases |receipts|
  {
    if receipts != [] {
      FailedStaysFailed(receipts[1..]);
    }
  }

  /** A message in flight ends failed exactly when a failure arrives before any delivery or read receipt. */
  lemma {:induction false} FailsExactlyWhenFirst(current: Status, receipts: seq<Status>)
    requires !Ended(current) && !Settles(current) && forall r :: r in receipts ==> IsReceipt(r)
    ensures Final(current, receipts).Failed? <==> FailsFirst(receipts)
    decreases |receipts|
  {
    hide FailsFirst;
    if receipts == [] {
      NoReceiptsNoFailure();
    } else {
      FailsFirstStep(receipts);
      var next := Next(current, receipts[0]);
      if receipts[0].Failed? {
        FailedStaysFailed(receipts[1..]);
      } else if Settles(receipts[0]) {
        SettledNeverFails(next, receipts[1..]);
      } else {
        FailsExactlyWhenFirst(next, receipts[1..]);
      }
    }
  }

  lemma NoReceiptsNoFailure()
    ensures !FailsFirst([])
  {
  }

  function WithoutFailures(receipts: seq<Status>): (others: seq<Status>)
    ensures forall r :: r in others <==> r in receipts && !r.Failed?
    decreases |receipts|
  {
    if receipts == [] then []
    else if receipts[0].Failed? then WithoutFailures(receipts[1..])
    else [receipts[0]] + WithoutFailures(receipts[1..])
  }

  lemma {:induction false} SettledIgnoresFailures(current: Status, receipts: seq<Status>)
    requires Settles(current) && forall r :: r in receipts ==> IsReceipt(r)
    ensures Final(current, receipts) == Final(current, WithoutFailures(receipts))
    decreases |receipts|
  {
    if receipts != [] {
      SettledIgnoresFailures(Next(current, receipts[0]), receipts[1..]);
      if !receipts[0].Failed? {
        DropFirst(current, receipts);
      }
    }
  }

  lemma DropFirst(current: Status, receipts: seq<Status>)
    requires receipts != [] && !receipts[0].Failed?
    ensures Final(current, WithoutFailures(receipts))
         == Final(Next(current, receipts[0]), WithoutFailures(receipts[1..]))
  {
    hide Next;
    assert WithoutFailures(receipts)[0] == receipts[0] && WithoutFailures(receipts)[1..] == WithoutFailures(receipts[1..]);
  }

  /** Unless a failure comes first, the failures might as well not have arrived. */
  lemma {:induction false} LateFailuresAreIgnored(current: Status, receipts: seq<Status>)
    requires !Ended(current) && forall r :: r in receipts ==> IsReceipt(r)
    requires Settles(current) || !FailsFirst(receipts)
    ensures Final(current, receipts) == Final(current, WithoutFailures(receipts))
    decreases |receipts|
  {
    hide FailsFirst;
    if Settles(current) {
      SettledIgnoresFailures(current, receipts);
    } else if receipts != [] {
      FailsFirstStep(receipts);
      LateFailuresAreIgnored(Next(current, receipts[0]), receipts[1..]);
      DropFirst(current, receipts);
    }
  }

  /** And the message ends at the highest rank among its other receipts. */
  lemma HighestRankUnlessFailedFirst(current: Status, receipts: seq<Status>)
    requires !Ended(current) && forall r :: r in receipts ==> IsReceipt(r)
    requires Settles(current) || !FailsFirst(receipts)
    ensures !Ended(Final(current, receipts))
    ensures Rank(Final(current, receipts)) == Highest(Rank(current), WithoutFailures(receipts))
  {
    hide FailsFirst, Final, Rank, Highest;
    LateFailuresAreIgnored(current, receipts);
    EndsAtHighestRank(current, WithoutFailures(receipts));
  }

  /** The later of a live status and the receipts: Read over Delivered over Sent over everything before. */
  function Latest(current: Status, receipts: seq<Status>): Status
  {
    if current == Read || Read in receipts then Read
    else if current == Delivered || Delivered in receipts then Delivered
    else if current == Sent || Sent in receipts then Sent
    else current
  }

  lemma LatestStep(current: Status, receipts: seq<Status>)
    requires current in [Created, Queued, Processing, Submitted, Sent, Delivered, Read]
    requires receipts != [] && receipts[0] in [Sent, Delivered, Read]
    ensures Next(current, receipts[0]) == Latest(current, [receipts[0]])
    ensures Latest(Next(current, receipts[0]), receipts[1..]) == Latest(current, receipts)
  {
    assert receipts == [receipts[0]] + receipts[1..];
  }

  lemma {:induction false} EndsAtLatest(current: Status, receipts: seq<Status>)
    requires current in [Created, Queued, Processing, Submitted, Sent, Delivered, Read]
    requires forall r :: r in receipts ==> r in [Sent, Delivered, Read]
    ensures Final(current, receipts) == Latest(current, receipts)
    decreases |receipts|
  {
    hide Next, Latest;
    if receipts == [] {
      assert Latest(current, []) == current by { LatestOfNone(current); }
    } else {
      LatestStep(current, receipts);
      LatestIsLive(current, receipts[0]);
      EndsAtLatest(Next(current, receipts[0]), receipts[1..]);
    }
  }

  lemma LatestOfNone(current: Status)
    ensures Latest(current, []) == current
  {
  }

  lemma LatestIsLive(current: Status, receipt: Status)
    requires current in [Created, Queued, Processing, Submitted, Sent, Delivered, Read]
    ensures Latest(current, [receipt]) in [Created, Queued, Processing, Submitted, Sent, Delivered, Read]
  {
  }

  lemma {:induction false} EndedOnlyFails(current: Status, receipts: seq<Status>)
    requires Ended(current) && forall r :: r in receipts ==> IsReceipt(r)
    ensures Final(current, receipts) == if Failed in receipts then Failed else current
    decreases |receipts|
  {
    if receipts != [] {
      EndedOnlyFails(Next(current, receipts[0]), receipts[1..]);
      assert receipts == [receipts[0]] + receipts[1..];
    }
  }

  /** A failure comes before every delivery and read receipt. */
  ghost predicate FailureLeads(receipts: seq<Status>)
  {
    exists i :: 0 <= i < |receipts| && receipts[i] == Failed && Delivered !in receipts[..i] && Read !in receipts[..i]
  }

  lemma FailureLeadsIsFailsFirst(receipts: seq<Status>)
    ensures FailureLeads(receipts) <==> FailsFirst(receipts)
  {
    if i :| 0 <= i < |receipts| && receipts[i] == Failed && Delivered !in receipts[..i] && Read !in receipts[..i] {
      assert forall j :: 0 <= j < i ==> receipts[j] in receipts[..i];
    }
    if i :| 0 <= i < |receipts| && receipts[i].Failed? && forall j :: 0 <= j < i ==> !Settles(receipts[j]) {
      assert forall r :: r in receipts[..i] ==> !Settles(r);
    }
  }

  /**
   * The status any receipts leave behind: a message that ended only turns failed, one in flight
   * fails when a failure comes before every delivery and read receipt, and all others end at the
   * latest of the four statuses.
   */
  lemma ReceiptsDecide(current: Status, receipts: seq<Status>)
    requires forall r :: r in receipts ==> r in [Sent, Delivered, Read, Failed]
    ensures Final(current, receipts) ==
            if current in [Failed, Cancelled, Expired] then (if Failed in receipts then Failed else current)
            else if current !in [Delivered, Read] && FailureLeads(receipts) then Failed
            else if current == Read || Read in receipts then Read
            else if current == Delivered || Delivered in receipts then Delivered
            else if current == Sent || Sent in receipts then Sent
            else current
  {
    hide Final, FailsFirst, FailureLeads;
    FailureLeadsIsFailsFirst(receipts);
    if Ended(current) {
      EndedOnlyFails(current, receipts);
    } else {
      if !Settles(current) {
        FailsExactlyWhenFirst(current, receipts);
      }
      if Settles(current) || !FailsFirst(receipts) {
        LateFailuresAreIgnored(current, receipts);
        EndsAtLatest(current, WithoutFailures(receipts));
      }
    }
  }

  /** Both a failure and a delivery or read receipt. */
  predicate Contradict(receipts: seq<Status>)
  {
    Failed in receipts && exists r :: r in receipts && Settles(r)
  }

  lemma FailsFirstWithoutSettling(receipts: seq<Status>)
    requires !Contradict(receipts)
    ensures FailsFirst(receipts) <==> Failed in receipts
  {
    if Failed in receipts {
      var i :| 0 <= i < |receipts| && receipts[i] == Failed;
      assert forall j :: 0 <= j < i ==> receipts[j] in receipts;
    }
  }

  /** Every order of the same receipts leaves the message in the same status. */
  ghost predicate AnyOrderEndsAlike(current: Status, receipts: seq<Status>)
  {
    forall other :: multiset(other) == multiset(receipts) ==> Final(current, other) == Final(current, receipts)
  }

  lemma SameMembers(a: seq<Status>, b: seq<Status>)
    requires multiset(a) == multiset(b)
    ensures forall r :: r in a <==> r in b
  {
    assert forall r :: r in a <==> r in multiset(a);
    assert forall r :: r in b <==> r in multiset(b);
  }

  lemma AlikeUnlessContradicting(current: Status, a: seq<Status>, b: seq<Status>)
    requires multiset(a) == multiset(b) && forall r :: r in a ==> IsReceipt(r)
    requires Ended(current) || Settles(current) || !Contradict(a)
    ensures Final(current, a) == Final(current, b)
  {
    hide FailsFirst, Final, WithoutFailures;
    SameMembers(a, b);
    if Ended(current) {
      EndedOnlyFails(current, a);
      EndedOnlyFails(current, b);
    } else if !Settles(current) && Failed in a {
      FailsFirstWithoutSettling(a);
      FailsFirstWithoutSettling(b);
      FailsExactlyWhenFirst(current, a);
      FailsExactlyWhenFirst(current, b);
    } else {
      if !Settles(current) {
        FailsFirstWithoutSettling(a);
        FailsFirstWithoutSettling(b);
      }
      LateFailuresAreIgnored(current, a);
      LateFailuresAreIgnored(current, b);
      OrderDoesNotMatter(current, WithoutFailures(a), WithoutFailures(b));
    }
  }

  function ToFront(receipts: seq<Status>, i: nat): (moved: seq<Status>)
    requires i < |receipts|
    ensures multiset(moved) == multiset(receipts) && moved[0] == receipts[i]
  {
    assert receipts == receipts[..i] + [receipts[i]] + receipts[i + 1..];
    [receipts[i]] + (receipts[..i] + receipts[i + 1..])
  }

  /** Moving a failure or a delivery to the front decides whether a message in flight fails. */
  lemma FrontDecides(current: Status, receipts: seq<Status>, i: nat)
    requires !Ended(current) && !Settles(current) && forall r :: r in receipts ==> IsReceipt(r)
    requires i < |receipts| && (receipts[i].Failed? || Settles(receipts[i]))
    ensures Final(current, ToFront(receipts, i)).Failed? <==> receipts[i].Failed?
  {
    hide FailsFirst, Final, ToFront;
    var moved := ToFront(receipts, i);
    SameMembers(moved, receipts);
    FailsExactlyWhenFirst(current, moved);
    FailsFirstStep(moved);
  }

  /**
   * The order of receipts is irrelevant exactly when the message has ended or was delivered
   * before, or the receipts do not hold both a failure and a delivery or read receipt.
   */
  lemma FailuresDependOnOrder(current: Status, receipts: seq<Status>)
    requires forall r :: r in receipts ==> IsReceipt(r)
    ensures AnyOrderEndsAlike(current, receipts) <==> Ended(current) || Settles(current) || !Contradict(receipts)
  {
    hide Final, ToFront;
    if Ended(current) || Settles(current) || !Contradict(receipts) {
      forall other | multiset(other) == multiset(receipts)
        ensures Final(current, other) == Final(current, receipts)
      {
        AlikeUnlessContradicting(current, receipts, other);
      }
    } else {
      var i :| 0 <= i < |receipts| && receipts[i] == Failed;
      var r :| r in receipts && Settles(r);
      var j :| 0 <= j < |receipts| && receipts[j] == r;
      FrontDecides(current, receipts, i);
      FrontDecides(current, receipts, j);
      assert Final(current, ToFront(receipts, i)) != Final(current, ToFront(receipts, j));
    }
  }
}
