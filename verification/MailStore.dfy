/** Update of lib/msgstore.go for the worker messages that change the list of messages. */
module MailStore {
  import opened Prelude
  import opened ThreadTree
  import opened ThreadNodes
  import opened ThreadList
  import opened MailList
  import opened ThreadPane
  import BodyFetching

  class MessageStore {
    const name: string
    const reverse: bool
    const buildThreads: bool
    const pane: ThreadPane
    var threadedView: bool
    var uids: seq<UID>
    var messages: map<UID, Option<Info>>
    var deleted: set<UID>
    var results: seq<UID>
    var selectedUid: UID
    var pendingHeaders: set<UID>
    var directoryContentsLoaded: bool
    var scrollOffset: int
    var scrollLen: int

    constructor (name: string, reverse: bool, inverse: bool, threadedView: bool, buildThreads: bool)
      ensures Valid() && State() == START && fresh(pane) && fresh(pane.builder)
      ensures this.name == name && this.reverse == reverse && this.buildThreads == buildThreads
      ensures this.threadedView == threadedView && pane.inverse == inverse && pendingHeaders == {}
    {
      this.name, this.reverse, this.buildThreads, this.threadedView := name, reverse, buildThreads, threadedView;
      pane := new ThreadPane(reverse, inverse);
      uids, messages, deleted, results := [], map[], {}, [];
      selectedUid, pendingHeaders, directoryContentsLoaded := MAGIC_UID, {}, false;
      scrollOffset, scrollLen := 0, 25;
    }

    ghost function State(): Mail
      reads this
    {
      Mail(uids, messages, deleted, results)
    }

    ghost predicate Valid()
      reads this, pane, pane.builder
    {
      Sound(State()) && pane.builder.reverse == reverse && pane.Valid()
    }

    /** The list of threads is rebuilt by the store itself, not by the threader of the client. */
    predicate Rebuilds()
      reads this
    {
      threadedView && !buildThreads
    }

    /** The first row below the screen. */
    function ScreenEnd(): int
      reads this
    {
      scrollOffset + scrollLen
    }

    /** The headers to ask for when a new list arrives: those of unknown messages on the screen. */
    ghost function HeadersFor(list: seq<UID>): seq<UID>
      reads this
    {
      BodyFetching.ToFetch(pendingHeaders, NewUids(list, messages.Keys, |list|, reverse, scrollOffset, ScreenEnd()))
    }

    /** insertUid. */
    method InsertUid(uid: UID, index: Option<int>)
      modifies this`uids
      ensures uids == Inserted(old(uids), uid, index)
    {
      if index.None? || index.value <= 0 || index.value >= |uids| {
        uids := uids + [uid];
      } else {
        uids := uids[..index.value] + [uid] + uids[index.value..];
      }
    }

    /** FetchHeaders: what it posts to the worker, if anything. */
    method FetchHeaders(uids: seq<UID>) returns (toFetch: seq<UID>)
      modifies this`pendingHeaders
      ensures toFetch == BodyFetching.ToFetch(old(pendingHeaders), uids)
      ensures pendingHeaders == old(pendingHeaders) + set u | u in uids
    {
      toFetch := [];
      ghost var before := pendingHeaders;
      for i := 0 to |uids|
        invariant toFetch == BodyFetching.ToFetch(before, uids[..i])
        invariant forall u :: u in pendingHeaders <==> u in before || u in uids[..i]
      {
        BodyFetching.ToFetchNext(before, uids, i);
        assert uids[..i + 1] == uids[..i] + [uids[i]];
        if uids[i] !in pendingHeaders {
          toFetch := toFetch + [uids[i]];
          pendingHeaders := pendingHeaders + {uids[i]};
        }
        assert toFetch == BodyFetching.ToFetch(before, uids[..i + 1]);
      }
      assert uids[..|uids|] == uids;
    }

    /** Its callback, once the worker is done with the request in whatever way. */
    method HeadersAnswered(toFetch: seq<UID>)
      modifies this`pendingHeaders
      ensures pendingHeaders == old(pendingHeaders) - set u | u in toFetch
    {
      ghost var before := pendingHeaders;
      for i := 0 to |toFetch|
        invariant forall u :: u in pendingHeaders <==> u in before && u !in toFetch[..i]
      {
        pendingHeaders := pendingHeaders - {toFetch[i]};
      }
    }

    /** The loop over a new list of messages. */
    method Compare(list: seq<UID>) returns (newMap: map<UID, Option<Info>>, newUids: seq<UID>, directoryChange: bool)
      ensures newMap == Known(list, messages)
      ensures newUids == NewUids(list, messages.Keys, |list|, reverse, scrollOffset, ScreenEnd())
      ensures directoryChange <==> exists u :: u in list && u !in messages
    {
      newMap, newUids, directoryChange := map[], [], false;
      for i := 0 to |list|
        invariant newMap == Known(list[..i], messages)
        invariant newUids == NewUids(list, messages.Keys, i, reverse, scrollOffset, ScreenEnd())
        invariant directoryChange <==> exists u :: u in list[..i] && u !in messages
      {
        var uid := list[i];
        assert list[..i + 1] == list[..i] + [uid];
        if uid in messages {
          newMap := newMap[uid := messages[uid]];
        } else {
          newMap := newMap[uid := None];
          directoryChange := true;
          var pos := RowOf(i, |list|, reverse);
          if pos >= scrollOffset && pos < ScreenEnd() {
            newUids := newUids + [uid];
          }
        }
      }
      assert list[..|list|] == list;
    }

    /** The part that DirectoryContents and DirectoryThreaded share: take over a new list. */
    method Adopt(list: seq<UID>) returns (toFetch: seq<UID>)
      requires Sound(State()) && NoDup(list)
      modifies this`uids, this`messages, this`directoryContentsLoaded, this`pendingHeaders
      ensures Sound(State()) && State() == Next(old(State()), Contents(list))
      ensures toFetch == old(HeadersFor(list))
    {
      StepIsSound(State(), Contents(list));
      var newMap, newUids, directoryChange := Compare(list);
      messages := newMap;
      uids := list;
      directoryContentsLoaded := true;
      toFetch := FetchHeaders(newUids);
    }

    /** DirectoryContents: the headers that are asked for. */
    method DirectoryContents(directory: string, list: seq<UID>) returns (toFetch: seq<UID>)
      requires Valid() && NoDup(list)
      modifies this`uids, this`messages, this`directoryContentsLoaded, this`pendingHeaders
      ensures Valid()
      ensures State() == if directory == name then Next(old(State()), Contents(list)) else old(State())
      ensures toFetch == if directory == name then old(HeadersFor(list)) else []
    {
      if directory != name {
        return [];
      }
      toFetch := Adopt(list);
    }

    /** DirectoryThreaded: the list is the one rebuilt from the threads. */
    method DirectoryThreaded(directory: string, threads: seq<Thread>, ghost ts: seq<Tree>, ghost m: Nodes)
      returns (toFetch: seq<UID>)
      requires Valid() && Unique(ts) && Keyed(m) && AreRoots(threads, ts, m) && m.Keys == Elements(UidsOf(ts))
      modifies this`uids, this`messages, this`directoryContentsLoaded, this`pendingHeaders
      modifies pane, pane.builder, m.Values`hidden, m.Values`deleted
      ensures Valid()
      ensures State() == if directory == name then Next(old(State()), Threaded(uids)) else old(State())
      ensures directory == name ==> pane.Current() && pane.ts == ts && uids == pane.builder.threadedUids
      ensures directory == name ==> (Displayed(reverse, uids) ==
        Listing(reverse, pane.inverse, ts, CarriedAll(old(FlagsOf(pane.builder.threadMap)), old(FlagsOf(m)))))
      ensures var list := uids; toFetch == if directory == name then old(HeadersFor(list)) else []
    {
      if directory != name {
        return [];
      }
      pane.Replace(threads, ts, m);
      toFetch := Adopt(pane.builder.threadedUids);
    }

    /** MessageInfo: what the selection callback is told, if anything; the update leaves the threads as they are. */
    method MessageInfo(directory: string, info: Info, solicited: bool, replaceFlags: bool, index: Option<int>)
      returns (selected: Option<Info>)
      requires Valid()
      modifies this`uids, this`messages, this`pendingHeaders
      modifies pane.builder, pane.m.Values`hidden, pane.m.Values`deleted
      ensures Valid()
      ensures State() ==
        if directory == name then Next(old(State()), Message(info, solicited, replaceFlags, index)) else old(State())
      ensures pendingHeaders ==
        if directory == name && info.Updated() then old(pendingHeaders) - {info.uid} else old(pendingHeaders)
      ensures selected ==
        if directory == name && Loaded(old(State()), info.uid).None? && info.Updated() && info.uid == selectedUid
        then Some(info)
        else None
      ensures FlagsOf(pane.builder.threadMap) == old(FlagsOf(pane.builder.threadMap))
      ensures directory == name && Rebuilds() ==> pane.Current()
      ensures old(pane.Current()) ==> pane.builder.threadedUids == old(pane.builder.threadedUids)
    {
      if directory != name {
        return None;
      }
      selected := Receive(info, solicited, replaceFlags, index);
      pane.Update(Rebuilds());
    }

    /** What it does to the messages. */
    method Receive(info: Info, solicited: bool, replaceFlags: bool, index: Option<int>) returns (selected: Option<Info>)
      requires Sound(State())
      modifies this`uids, this`messages, this`pendingHeaders
      ensures Sound(State()) && State() == Next(old(State()), Message(info, solicited, replaceFlags, index))
      ensures pendingHeaders == if info.Updated() then old(pendingHeaders) - {info.uid} else old(pendingHeaders)
      ensures selected ==
        if Loaded(old(State()), info.uid).None? && info.Updated() && info.uid == selectedUid then Some(info) else None
    {
      StepIsSound(State(), Message(info, solicited, replaceFlags, index));
      var infoUpdated := info.Updated();
      selected := None;
      if info.uid in messages && messages[info.uid].Some? {
        var existing := Merge(messages[info.uid].value, info);
        if replaceFlags {
          existing := existing.(flags := info.flags);
        } else {
          existing := existing.(flags := messages[info.uid].value.flags + info.flags);
        }
        messages := messages[info.uid := Some(existing)];
      } else if infoUpdated {
        messages := messages[info.uid := Some(info)];
        if selectedUid == info.uid {
          selected := Some(info);
        }
        if !solicited && info.uid !in uids {
          InsertUid(info.uid, index);
        }
      } else if !solicited {
        messages := messages[info.uid := Some(info)];
        if info.uid !in uids {
          InsertUid(info.uid, index);
        }
      }
      if infoUpdated && info.uid in pendingHeaders {
        pendingHeaders := pendingHeaders - {info.uid};
      }
    }

    /** The loop that drops messages from a list. */
    method Filtered(list: seq<UID>, gone: set<UID>) returns (kept: seq<UID>)
      ensures kept == Without(list, gone)
    {
      kept := [];
      for i := 0 to |list|
        invariant kept == Without(list[..i], gone)
      {
        assert list[..i + 1][..i] == list[..i];
        if list[i] !in gone {
          kept := kept + [list[i]];
        }
      }
      assert list[..|list|] == list;
    }

    /** Whether a report of deleted messages is acted on. */
    predicate Accepts(directory: string, gone: seq<UID>)
      reads this
    {
      directory == name && |gone| <= |uids|
    }

    /** MessagesDeleted: exactly the threads of these messages are marked, and the list of threads loses these
        messages. */
    method MessagesDeleted(directory: string, gone: seq<UID>)
      requires Valid()
      modifies this`uids, this`messages, this`deleted, this`results, this`selectedUid
      modifies pane.builder, pane.builder.threadMap.Values`hidden, pane.builder.threadMap.Values`deleted
      ensures Valid()
      ensures State() == if directory == name then Next(old(State()), Deleted(gone)) else old(State())
      ensures selectedUid == if old(Accepts(directory, gone)) && uids == [] then MAGIC_UID else old(selectedUid)
      ensures FlagsOf(pane.builder.threadMap) ==
        if old(Accepts(directory, gone)) then DeletedIn(old(FlagsOf(pane.builder.threadMap)), Elements(gone))
        else old(FlagsOf(pane.builder.threadMap))
      ensures if old(Accepts(directory, gone)) && Rebuilds() then
          && pane.Current()
          && (old(pane.Current()) ==>
                pane.builder.threadedUids == Without(old(pane.builder.threadedUids), Elements(gone)))
        else pane.builder.threadedUids == old(pane.builder.threadedUids)
    {
      if directory != name {
        return;
      }
      if |uids| < |gone| {
        return;
      }
      DeleteAccepted(gone);
    }

    /** What is done about an accepted report. */
    method DeleteAccepted(gone: seq<UID>)
      requires Valid() && |gone| <= |uids|
      modifies this`uids, this`messages, this`deleted, this`results, this`selectedUid
      modifies pane.builder, pane.builder.threadMap.Values`hidden, pane.builder.threadMap.Values`deleted
      ensures Valid() && State() == Next(old(State()), Deleted(gone))
      ensures selectedUid == if uids == [] then MAGIC_UID else old(selectedUid)
      ensures FlagsOf(pane.builder.threadMap) ==
        DeletedIn(old(FlagsOf(pane.builder.threadMap)), Elements(gone))
      ensures if !Rebuilds() then pane.builder.threadedUids == old(pane.builder.threadedUids)
        else
          && pane.Current()
          && (old(pane.Current()) ==>
                pane.builder.threadedUids == Without(old(pane.builder.threadedUids), Elements(gone)))
    {
      var toDelete := set u | u in gone;
      assert toDelete == Elements(gone);
      ghost var stored, list, current := FlagsOf(pane.builder.threadMap), pane.builder.threadedUids, pane.Current();
      Drop(gone, toDelete);
      assert FlagsOf(pane.builder.threadMap) == stored && (pane.Current() <==> current);
      pane.Delete(toDelete, Rebuilds());
    }

    /** What it does to the messages. */
    method Drop(ghost gone: seq<UID>, toDelete: set<UID>)
      requires Sound(State()) && |gone| <= |uids| && toDelete == Elements(gone)
      modifies this`uids, this`messages, this`deleted, this`results, this`selectedUid
      ensures Sound(State()) && State() == Next(old(State()), Deleted(gone))
      ensures selectedUid == if uids == [] then MAGIC_UID else old(selectedUid)
    {
      StepIsSound(State(), Deleted(gone));
      messages := messages - toDelete;
      deleted := deleted - toDelete;
      uids := Filtered(uids, toDelete);
      if |uids| == 0 {
        selectedUid := MAGIC_UID;
      }
      results := Filtered(results, toDelete);
    }
  }
}
