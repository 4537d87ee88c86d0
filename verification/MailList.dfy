/** The messages of a folder as lib/msgstore.go keeps them, and what worker messages do to them. */
module MailList {
  import opened Prelude
  import opened ThreadTree
  import opened ThreadNodes

  type Stamp = nat

  datatype Info = Info(
    uid: UID, structure: Option<Stamp>, envelope: Option<Stamp>, labels: seq<string>, error: Option<string>,
    headers: Option<Stamp>, size: nat, date: Option<Stamp>, flags: set<string>)
  {
    predicate Updated() {
      envelope.Some? || error.Some?
    }
  }

  /** The order of the known messages, and what is loaded of each. */
  datatype Mail = Mail(
    uids: seq<UID>, messages: map<UID, Option<Info>>, deleted: set<UID>, results: seq<UID>)

  /** The worker messages that change it. */
  datatype Event =
    | Contents(uids: seq<UID>)
    | Threaded(listing: seq<UID>)
    | Message(info: Info, solicited: bool, replaceFlags: bool, index: Option<int>)
    | Deleted(gone: seq<UID>)

  const START := Mail([], map[], {}, [])

  // ---------- the steps ----------

  /** merge. */
  function Merge(to: Info, from: Info): Info {
    to.(structure := if from.structure.Some? then from.structure else to.structure,
        envelope := if from.envelope.Some? then from.envelope else to.envelope,
        labels := from.labels,
        error := from.error,
        headers := if from.headers.Some? then from.headers else to.headers,
        size := if from.size != 0 then from.size else to.size,
        date := if from.date.Some? then from.date else to.date)
  }

  function Refreshed(to: Info, from: Info, replaceFlags: bool): Info {
    Merge(to, from).(flags := if replaceFlags then from.flags else to.flags + from.flags)
  }

  /** insertUid: an index that is missing, not positive or past the end appends. */
  function Inserted(uids: seq<UID>, uid: UID, index: Option<int>): seq<UID> {
    if index.None? || index.value <= 0 || index.value >= |uids| then uids + [uid]
    else uids[..index.value] + [uid] + uids[index.value..]
  }

  /** The messages of a new list: what is loaded of known ones is kept. */
  function Known(uids: seq<UID>, messages: map<UID, Option<Info>>): map<UID, Option<Info>> {
    map u | u in uids :: if u in messages then messages[u] else None
  }

  function Loaded(m: Mail, uid: UID): Option<Info> {
    if uid in m.messages then m.messages[uid] else None
  }

  function Received(m: Mail, info: Info, solicited: bool, replaceFlags: bool, index: Option<int>): Mail {
    var known := Loaded(m, info.uid);
    if known.Some? then
      m.(messages := m.messages[info.uid := Some(Refreshed(known.value, info, replaceFlags))])
    else if info.Updated() || !solicited then
      m.(messages := m.messages[info.uid := Some(info)],
         uids := if !solicited && info.uid !in m.uids then Inserted(m.uids, info.uid, index) else m.uids)
    else m
  }

  function Without(us: seq<UID>, gone: set<UID>): seq<UID> {
    if us == [] then []
    else
      var front := Without(us[..|us| - 1], gone);
      if us[|us| - 1] in gone then front else front + [us[|us| - 1]]
  }

  function Removed(m: Mail, gone: seq<UID>): Mail {
    if |m.uids| < |gone| then m
    else
      var s := set u | u in gone;
      Mail(Without(m.uids, s), m.messages - s, m.deleted - s, Without(m.results, s))
  }

  function Next(m: Mail, e: Event): Mail {
    match e
    case Contents(uids) => m.(uids := uids, messages := Known(uids, m.messages))
    case Threaded(listing) => m.(uids := listing, messages := Known(listing, m.messages))
    case Message(info, solicited, replaceFlags, index) => Received(m, info, solicited, replaceFlags, index)
    case Deleted(gone) => Removed(m, gone)
  }

  function Run(m: Mail, es: seq<Event>): Mail {
    if es == [] then m else Next(Run(m, es[..|es| - 1]), es[|es| - 1])
  }

  // ---------- what every run keeps ----------

  /** Every listed message is listed once and is known. */
  ghost predicate Sound(m: Mail) {
    NoDup(m.uids) && forall u :: u in m.uids ==> u in m.messages
  }

  /** Lists from the server do not repeat a message. */
  ghost predicate Fair(e: Event) {
    && (e.Contents? ==> NoDup(e.uids))
    && (e.Threaded? ==> NoDup(e.listing))
  }

  lemma InsertedIs(uids: seq<UID>, uid: UID, index: Option<int>)
    requires NoDup(uids) && uid !in uids
    ensures NoDup(Inserted(uids, uid, index))
    ensures forall u :: u in Inserted(uids, uid, index) <==> u == uid || u in uids
  {
    if index.None? || index.value <= 0 || index.value >= |uids| {
      NoDupJoin(uids, [uid]);
    } else {
      var a, b := uids[..index.value], uids[index.value..];
      assert uids == a + b;
      NoDupConcat(a, b);
      NoDupJoin(a, [uid]);
      NoDupJoin(a + [uid], b);
    }
  }

  /** Insertion changes nothing else: taking the new message out gives the old list. */
  lemma InsertedMovesNone(uids: seq<UID>, uid: UID, index: Option<int>)
    requires uid !in uids
    ensures Without(Inserted(uids, uid, index), {uid}) == uids
  {
    if index.None? || index.value <= 0 || index.value >= |uids| {
      WithoutConcat(uids, [uid], {uid});
      WithoutNone(uids, {uid});
    } else {
      var a, b := uids[..index.value], uids[index.value..];
      assert uids == a + b;
      WithoutConcat(a + [uid], b, {uid});
      WithoutConcat(a, [uid], {uid});
      WithoutNone(a, {uid});
      WithoutNone(b, {uid});
    }
  }

  lemma {:induction false} WithoutConcat(a: seq<UID>, b: seq<UID>, gone: set<UID>)
    ensures Without(a + b, gone) == Without(a, gone) + Without(b, gone)
  {
    if b == [] {
      assert a + b == a;
    } else {
      assert (a + b)[..|a + b| - 1] == a + b[..|b| - 1];
      WithoutConcat(a, b[..|b| - 1], gone);
    }
  }

  lemma {:induction false} WithoutNone(us: seq<UID>, gone: set<UID>)
    requires forall u :: u in us ==> u !in gone
    ensures Without(us, gone) == us
  {
    if us != [] {
      WithoutNone(us[..|us| - 1], gone);
    }
  }

  lemma {:induction false} WithoutIs(us: seq<UID>, gone: set<UID>)
    ensures forall u :: u in Without(us, gone) <==> u in us && u !in gone
    ensures NoDup(us) ==> NoDup(Without(us, gone))
  {
    if us != [] {
      WithoutIs(us[..|us| - 1], gone);
      assert us == us[..|us| - 1] + [us[|us| - 1]];
    }
  }

  lemma StepIsSound(m: Mail, e: Event)
    requires Sound(m) && Fair(e)
    ensures Sound(Next(m, e))
  {
    match e {
      case Contents(uids) =>
      case Threaded(listing) =>
      case Message(info, solicited, replaceFlags, index) =>
        if info.uid !in m.uids {
          InsertedIs(m.uids, info.uid, index);
        }
      case Deleted(gone) =>
        WithoutIs(m.uids, set u | u in gone);
    }
  }

  /** Over every run of worker messages the list has no duplicates and only known messages. */
  lemma {:induction false} RunIsSound(es: seq<Event>)
    requires forall i :: 0 <= i < |es| ==> Fair(es[i])
    ensures Sound(Run(START, es))
  {
    if es != [] {
      RunIsSound(es[..|es| - 1]);
      StepIsSound(Run(START, es[..|es| - 1]), es[|es| - 1]);
    }
  }

  // ---------- what the steps mean ----------

  /** News of a loaded message: what is present in them is taken over, labels and errors always; flags are replaced or
      added to. Nothing else changes. */
  lemma LoadedIsUpdated(m: Mail, info: Info, solicited: bool, replaceFlags: bool, index: Option<int>)
    requires Loaded(m, info.uid).Some?
    ensures var m', was := Next(m, Message(info, solicited, replaceFlags, index)), Loaded(m, info.uid).value;
      && Loaded(m', info.uid).Some?
      && var now := Loaded(m', info.uid).value;
      && now.uid == was.uid
      && now.structure == (if info.structure == None then was.structure else info.structure)
      && now.envelope == (if info.envelope == None then was.envelope else info.envelope)
      && now.headers == (if info.headers == None then was.headers else info.headers)
      && now.date == (if info.date == None then was.date else info.date)
      && now.size == (if info.size == 0 then was.size else info.size)
      && now.labels == info.labels && now.error == info.error
      && (forall f :: f in now.flags <==> f in info.flags || (!replaceFlags && f in was.flags))
    ensures var m' := Next(m, Message(info, solicited, replaceFlags, index));
      && m'.uids == m.uids && m'.deleted == m.deleted && m'.results == m.results
      && m'.messages.Keys == m.messages.Keys
      && (forall u :: u in m.messages && u != info.uid ==> m'.messages[u] == m.messages[u])
  {
  }

  /** News of a message that is not loaded are kept as they are when they have an envelope or an error, or were not
      asked for; else they are dropped. */
  lemma UnloadedIsStored(m: Mail, info: Info, solicited: bool, replaceFlags: bool, index: Option<int>)
    requires Loaded(m, info.uid).None?
    ensures var m' := Next(m, Message(info, solicited, replaceFlags, index));
      if info.envelope != None || info.error != None || !solicited then
        && Loaded(m', info.uid) == Some(info)
        && m'.messages.Keys == m.messages.Keys + {info.uid}
        && (forall u :: u in m.messages && u != info.uid ==> m'.messages[u] == m.messages[u])
        && (solicited ==> m'.uids == m.uids)
        && m'.deleted == m.deleted && m'.results == m.results
      else m' == m
  {
  }

  /** Which flags a loaded message has after any run of news: those that came with news of it, and those it had, as far
      as no later news replaced them. */
  lemma {:induction false} FlagsAfterRun(m: Mail, es: seq<Event>, uid: UID, f: string)
    requires Loaded(m, uid).Some? && forall i :: 0 <= i < |es| ==> es[i].Message?
    ensures Loaded(Run(m, es), uid).Some?
    ensures f in Loaded(Run(m, es), uid).value.flags <==>
      || (f in Loaded(m, uid).value.flags && NoneReplaces(es, 0, uid))
      || exists i :: 0 <= i < |es| && Brings(es[i], uid, f) && NoneReplaces(es, i + 1, uid)
  {
    if es != [] {
      var n := |es| - 1;
      var front, e := es[..n], es[n];
      FlagsAfterRun(m, front, uid, f);
      ReplacesLast(es, 0, uid);
      if e.info.uid == uid {
        LoadedIsUpdated(Run(m, front), e.info, e.solicited, e.replaceFlags, e.index);
      }
      forall i | 0 <= i < n
        ensures NoneReplaces(es, i + 1, uid) <==> NoneReplaces(front, i + 1, uid) && !Replaces(e, uid)
        ensures front[i] == es[i]
      {
        ReplacesLast(es, i + 1, uid);
      }
      if Brings(e, uid, f) {
        assert NoneReplaces(es, n + 1, uid);
      }
    }
  }

  predicate Replaces(e: Event, uid: UID) {
    e.Message? && e.info.uid == uid && e.replaceFlags
  }

  predicate Brings(e: Event, uid: UID, f: string) {
    e.Message? && e.info.uid == uid && f in e.info.flags
  }

  predicate NoneReplaces(es: seq<Event>, from: nat, uid: UID) {
    forall j :: from <= j < |es| ==> !Replaces(es[j], uid)
  }

  lemma ReplacesLast(es: seq<Event>, from: nat, uid: UID)
    requires es != [] && from < |es|
    ensures NoneReplaces(es, from, uid) <==> NoneReplaces(es[..|es| - 1], from, uid) && !Replaces(es[|es| - 1], uid)
  {
    assert forall j :: 0 <= j < |es| - 1 ==> es[..|es| - 1][j] == es[j];
  }

  /** A new list takes the place of the old one; what is loaded of its messages is kept, and nothing of others. */
  lemma NewListKeepsLoaded(m: Mail, list: seq<UID>, e: Event)
    requires e == Contents(list) || e == Threaded(list)
    ensures var m' := Next(m, e);
      && m'.uids == list && m'.deleted == m.deleted && m'.results == m.results
      && (forall u :: u in m'.messages <==> u in list)
      && (forall u :: u in list && u in m.messages ==> m'.messages[u] == m.messages[u])
      && (forall u :: u in list && u !in m.messages ==> m'.messages[u] == None)
  {
  }

  /** Without an index inside of the list a message goes to its end. */
  lemma NoPlaceAppends(uids: seq<UID>, uid: UID, index: Option<int>)
    requires uid !in uids
    ensures |Inserted(uids, uid, index)| == |uids| + 1
    ensures Inserted(uids, uid, index)[|uids|] == uid <==> index == None || index.value <= 0 || index.value >= |uids|
  {
    if index.Some? && 0 < index.value < |uids| {
      assert Inserted(uids, uid, index)[|uids|] == uids[|uids| - 1];
      assert uids[|uids| - 1] in uids;
    }
  }

  /** A message about which the server tells unasked is listed, unless it was loaded and not listed. */
  lemma UnsolicitedIsListed(m: Mail, info: Info, replaceFlags: bool, index: Option<int>)
    requires Sound(m)
    ensures info.uid in Received(m, info, false, replaceFlags, index).uids
      <==> info.uid in m.uids || Loaded(m, info.uid).None?
    ensures forall u :: u != info.uid ==>
              (u in Received(m, info, false, replaceFlags, index).uids <==> u in m.uids)
  {
    if info.uid !in m.uids {
      InsertedIs(m.uids, info.uid, index);
    }
  }

  /** It is put at the place of its index, except at the head of a list that is not empty. */
  lemma IndexIsPlaceIffNotHead(uids: seq<UID>, uid: UID, i: nat)
    requires i <= |uids| && uid !in uids
    ensures Inserted(uids, uid, Some(i))[i] == uid <==> i > 0 || uids == []
  {
    if i == 0 && uids != [] {
      assert Inserted(uids, uid, Some(i))[0] == uids[0];
      assert uids[0] in uids;
    }
  }

  /** Deleted messages leave every list; but nothing happens when more go than there are. */
  lemma DeletedAreGone(m: Mail, gone: seq<UID>)
    requires Sound(m)
    ensures var m' := Removed(m, gone);
      if |m.uids| < |gone| then m' == m
      else
        && (forall u :: u in m'.uids <==> u in m.uids && u !in gone)
        && (forall u :: u in m'.results <==> u in m.results && u !in gone)
        && (forall u :: u in m'.messages <==> u in m.messages && u !in gone)
        && (forall u :: u in m'.messages ==> m'.messages[u] == m.messages[u])
        && (forall u :: u in m'.deleted <==> u in m.deleted && u !in gone)
  {
    var s := set u | u in gone;
    WithoutIs(m.uids, s);
    WithoutIs(m.results, s);
  }

  // ---------- which headers are fetched ----------

  /** actualPositionInList. */
  function RowOf(pos: int, len: int, reverse: bool): int {
    if !reverse then len - pos - 1 else pos
  }

  predicate InWindow(row: int, start: int, end: int) {
    start <= row < end
  }

  /** Of the first `n` messages of a new list: those not known yet whose row is on the screen. */
  function NewUids(uids: seq<UID>, known: set<UID>, n: nat, reverse: bool, start: int, end: int): seq<UID>
    requires n <= |uids|
  {
    if n == 0 then []
    else
      var most := NewUids(uids, known, n - 1, reverse, start, end);
      if uids[n - 1] !in known && InWindow(RowOf(n - 1, |uids|, reverse), start, end) then most + [uids[n - 1]]
      else most
  }

  lemma {:induction false} NewUidsUpTo(uids: seq<UID>, known: set<UID>, n: nat, reverse: bool, start: int, end: int,
      u: UID)
    requires n <= |uids|
    ensures u in NewUids(uids, known, n, reverse, start, end) <==>
      u !in known && exists i :: 0 <= i < n && uids[i] == u && InWindow(RowOf(i, |uids|, reverse), start, end)
  {
    if n > 0 {
      NewUidsUpTo(uids, known, n - 1, reverse, start, end, u);
    }
  }

  /** They are the messages that the display shows from row `start` to row `end` and that are not known. */
  lemma NewUidsAreOnScreen(uids: seq<UID>, known: set<UID>, reverse: bool, start: int, end: int, u: UID)
    ensures u in NewUids(uids, known, |uids|, reverse, start, end) <==>
      u !in known && exists row :: 0 <= row < |uids| && InWindow(row, start, end) && Displayed(reverse, uids)[row] == u
  {
    NewUidsUpTo(uids, known, |uids|, reverse, start, end, u);
    if u in NewUids(uids, known, |uids|, reverse, start, end) {
      var i :| 0 <= i < |uids| && uids[i] == u && InWindow(RowOf(i, |uids|, reverse), start, end);
      assert Displayed(reverse, uids)[RowOf(i, |uids|, reverse)] == u;
    }
    if row :| 0 <= row < |uids| && InWindow(row, start, end) && Displayed(reverse, uids)[row] == u {
      assert uids[RowOf(row, |uids|, reverse)] == u;
      assert RowOf(RowOf(row, |uids|, reverse), |uids|, reverse) == row;
    }
  }
}
