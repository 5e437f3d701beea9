/**
  Exactly which consents a merge withdraws, and exactly what it makes of the preferences that hold the opt-outs;
  then the same for the consents over any chain of merges.
*/
module MergeConsents {
  import opened Wrappers
  import opened ClientMerge
  import opened MergeChains

  /** Before the merge some opt-out of the client, in this organization, covers the channel. */
  predicate OptedOut(dnd: seq<DndRow>, org: Option<OrgId>, client: ClientId, channel: Option<Channel>) {
    exists row <- dnd :: row.client == client && row.org == org && row.optOut && (row.channel == All || Some(row.channel) == channel)
  }

  lemma OptedOutIsVetoed(dnd: seq<DndRow>, org: Option<OrgId>, client: ClientId, channel: Option<Channel>)
    ensures OptedOut(dnd, org, client, channel) <==> Vetoed(dnd, org, client, channel)
  {
    if row :| row in dnd && row.client == client && row.org == org && row.optOut && (row.channel == All || Some(row.channel) == channel) {
      assert OptOutOf(row, org, client) && Covers(row.channel, channel);
    }
    if row :| row in dnd && OptOutOf(row, org, client) && Covers(row.channel, channel) {
      assert row.client == client && row.org == org && row.optOut;
    }
  }

  predicate Marketing(c: ConsentRow, org: Option<OrgId>) {
    c.org == org && c.purpose == "marketing"
  }

  // ---------------------------------------------------------------------------
  // One merge
  // ---------------------------------------------------------------------------

  /** A consent is withdrawn after a merge if and only if it was before, or it is a marketing consent of the
      organization that the source owns, or that the target owns on a channel that an opt-out of either
      covers. Nothing else about it changes. */
  lemma ConsentsExact(t: Tables, tables: seq<string>, source: ClientId, target: ClientId, org: Option<OrgId>, i: nat)
    requires Mergeable(t, source, target, org) && i < |t.consents|
    ensures var c := t.consents[i];
            var withdrawn := c.withdrawn
              || (Marketing(c, org)
                  && (c.client == source
                      || (c.client == target && (OptedOut(t.dnd, org, source, c.channel) || OptedOut(t.dnd, org, target, c.channel)))));
            && |Merged(t, tables, source, target, org).consents| == |t.consents|
            && Merged(t, tables, source, target, org).consents[i] == c.(withdrawn := withdrawn)
  {
    hide OptedOut, Vetoed, PreserveAll;
    var c := t.consents[i];
    OptedOutIsVetoed(t.dnd, org, source, c.channel);
    OptedOutIsVetoed(t.dnd, org, target, c.channel);
    VetoesUnite(t, tables, source, target, org, target, c.channel);
  }

  // --- The preference rows

  /** The unique key (client_id, channel) of preferences. */
  predicate UniqueDnd(dnd: seq<DndRow>) {
    forall i, j :: 0 <= i < j < |dnd| ==> dnd[i].client != dnd[j].client || dnd[i].channel != dnd[j].channel
  }

  /** The source's opt-out for this channel, if it has one. */
  predicate Gives(dnd: seq<DndRow>, org: Option<OrgId>, source: ClientId, channel: Channel, k: nat) {
    k < |dnd| && dnd[k].client == source && dnd[k].org == org && dnd[k].optOut && dnd[k].channel == channel
  }

  /** The target's preference after it took over an opt-out: its own quiet hours win. */
  predicate Takes(before: DndRow, given: DndRow, org: Option<OrgId>, after: DndRow) {
    && after.client == before.client && after.channel == before.channel && after.org == org && after.optOut
    && after.quietStart == (if before.quietStart.Some? then before.quietStart else given.quietStart)
    && after.quietEnd == (if before.quietEnd.Some? then before.quietEnd else given.quietEnd)
    && after.reason == Some("Preserved when a duplicate client was merged")
  }

  /** A preference the target got from the source. */
  predicate Copied(given: DndRow, org: Option<OrgId>, target: ClientId, after: DndRow) {
    && after.client == target && after.channel == given.channel && after.org == org && after.optOut
    && after.quietStart == given.quietStart && after.quietEnd == given.quietEnd
    && after.reason == Some("Preserved when a duplicate client was merged")
  }

  /** Some row of the source among the first n gives an opt-out for the channel. */
  predicate GivesTo(dnd: seq<DndRow>, org: Option<OrgId>, source: ClientId, channel: Channel, n: nat) {
    exists k: nat :: k < n && Gives(dnd, org, source, channel, k)
  }

  /** What the first n selected rows have made of row i: unchanged, or the taker of the one opt-out for its
      channel. */
  predicate OldRow(dnd: seq<DndRow>, org: Option<OrgId>, source: ClientId, target: ClientId, n: nat, i: nat, after: seq<DndRow>)
    requires i < |dnd|
  {
    && i < |after|
    && (dnd[i].client == target && GivesTo(dnd, org, source, dnd[i].channel, n) ==>
          forall k: nat :: k < n && Gives(dnd, org, source, dnd[i].channel, k) ==> Takes(dnd[i], dnd[k], org, after[i]))
    && (!(dnd[i].client == target && GivesTo(dnd, org, source, dnd[i].channel, n)) ==> after[i] == dnd[i])
  }

  predicate TargetHas(dnd: seq<DndRow>, target: ClientId, channel: Channel) {
    exists i :: 0 <= i < |dnd| && dnd[i].client == target && dnd[i].channel == channel
  }

  /** A row that was added comes from an opt-out of the source for a channel the target had no row for. */
  predicate NewRow(dnd: seq<DndRow>, org: Option<OrgId>, source: ClientId, target: ClientId, n: nat, after: seq<DndRow>, j: nat)
    requires j < |after|
  {
    exists k: nat :: k < n && k < |dnd| && Gives(dnd, org, source, dnd[k].channel, k) && !TargetHas(dnd, target, dnd[k].channel)
      && Copied(dnd[k], org, target, after[j])
  }

  /** The preferences after the first n rows of the INSERT ... SELECT. */
  predicate Preserved(dnd: seq<DndRow>, org: Option<OrgId>, source: ClientId, target: ClientId, n: nat, after: seq<DndRow>) {
    && UniqueDnd(after) && |after| >= |dnd|
    && (forall i: nat :: i < |dnd| ==> OldRow(dnd, org, source, target, n, i, after))
    && (forall j: nat :: |dnd| <= j < |after| ==> NewRow(dnd, org, source, target, n, after, j))
    && forall k: nat :: k < n && k < |dnd| && Gives(dnd, org, source, dnd[k].channel, k) ==> TargetHas(after, target, dnd[k].channel)
  }

  lemma GivesMore(dnd: seq<DndRow>, org: Option<OrgId>, source: ClientId, channel: Channel, n: nat)
    ensures GivesTo(dnd, org, source, channel, n + 1) <==> GivesTo(dnd, org, source, channel, n) || Gives(dnd, org, source, channel, n)
  {
  }

  /** A selected row that is no opt-out of the source changes nothing. */
  lemma PreservedSkip(dnd: seq<DndRow>, org: Option<OrgId>, source: ClientId, target: ClientId, n: nat, after: seq<DndRow>)
    requires Preserved(dnd, org, source, target, n, after) && n < |dnd| && !OptOutOf(dnd[n], org, source)
    ensures Preserved(dnd, org, source, target, n + 1, after)
  {
    var m := n + 1;
    forall channel: Channel ensures GivesTo(dnd, org, source, channel, m) <==> GivesTo(dnd, org, source, channel, n) {
      GivesMore(dnd, org, source, channel, n);
    }
    forall i: nat | i < |dnd| ensures OldRow(dnd, org, source, target, m, i, after) {
      assert OldRow(dnd, org, source, target, n, i, after);
    }
    forall j: nat | |dnd| <= j < |after| ensures NewRow(dnd, org, source, target, m, after, j) {
      assert NewRow(dnd, org, source, target, n, after, j);
    }
  }

  /** Under the unique key there is one opt-out of the source for a channel. */
  lemma OneGiver(dnd: seq<DndRow>, org: Option<OrgId>, source: ClientId, channel: Channel, k: nat, n: nat)
    requires UniqueDnd(dnd) && Gives(dnd, org, source, channel, k) && Gives(dnd, org, source, channel, n)
    ensures k == n
  {
  }

  /** The statement on one row, by position. */
  lemma PreserveAt(dnd: seq<DndRow>, org: Option<OrgId>, target: ClientId, row: DndRow)
    ensures var after := Preserve(dnd, org, target, row);
            && |after| == |dnd| + (if TargetHas(dnd, target, row.channel) then 0 else 1)
            && (forall i :: 0 <= i < |dnd| ==>
                  if dnd[i].client == target && dnd[i].channel == row.channel then Takes(dnd[i], row, org, after[i]) else after[i] == dnd[i])
            && (!TargetHas(dnd, target, row.channel) ==> Copied(row, org, target, after[|dnd|]))
  {
  }

  lemma PreserveUnique(dnd: seq<DndRow>, org: Option<OrgId>, target: ClientId, row: DndRow)
    requires UniqueDnd(dnd)
    ensures UniqueDnd(Preserve(dnd, org, target, row))
    ensures TargetHas(Preserve(dnd, org, target, row), target, row.channel)
    ensures forall channel: Channel :: TargetHas(dnd, target, channel) ==> TargetHas(Preserve(dnd, org, target, row), target, channel)
  {
    hide Preserve;
    PreserveAt(dnd, org, target, row);
    var after := Preserve(dnd, org, target, row);
    forall i | 0 <= i < |dnd| ensures after[i].client == dnd[i].client && after[i].channel == dnd[i].channel {
    }
    forall channel: Channel | TargetHas(dnd, target, channel) ensures TargetHas(after, target, channel) {
      var i :| 0 <= i < |dnd| && dnd[i].client == target && dnd[i].channel == channel;
      assert after[i].client == target && after[i].channel == channel;
    }
    if !TargetHas(dnd, target, row.channel) {
      assert after[|dnd|].client == target && after[|dnd|].channel == row.channel;
    }
  }

  lemma PreservedOld(dnd: seq<DndRow>, org: Option<OrgId>, source: ClientId, target: ClientId, n: nat, before: seq<DndRow>, i: nat)
    requires UniqueDnd(dnd) && source != target && n < |dnd| && OptOutOf(dnd[n], org, source)
    requires i < |dnd| && OldRow(dnd, org, source, target, n, i, before)
    ensures OldRow(dnd, org, source, target, n + 1, i, Preserve(before, org, target, dnd[n]))
  {
    hide Preserve, UniqueDnd;
    PreserveAt(before, org, target, dnd[n]);
    GivesMore(dnd, org, source, dnd[i].channel, n);
    forall k: nat | k < n && Gives(dnd, org, source, dnd[n].channel, k) ensures false {
      OneGiver(dnd, org, source, dnd[n].channel, k, n);
    }
    if dnd[i].client == target && dnd[i].channel == dnd[n].channel {
      assert !GivesTo(dnd, org, source, dnd[i].channel, n);
    }
  }

  lemma PreservedNew(dnd: seq<DndRow>, org: Option<OrgId>, source: ClientId, target: ClientId, n: nat, before: seq<DndRow>, j: nat)
    requires UniqueDnd(dnd) && source != target && n < |dnd| && OptOutOf(dnd[n], org, source) && Preserved(dnd, org, source, target, n, before)
    requires |dnd| <= j < |Preserve(before, org, target, dnd[n])|
    ensures NewRow(dnd, org, source, target, n + 1, Preserve(before, org, target, dnd[n]), j)
  {
    hide Preserve, UniqueDnd, OldRow;
    PreserveAt(before, org, target, dnd[n]);
    if j < |before| {
      assert NewRow(dnd, org, source, target, n, before, j);
      var k: nat :| k < n && k < |dnd| && Gives(dnd, org, source, dnd[k].channel, k) && !TargetHas(dnd, target, dnd[k].channel)
        && Copied(dnd[k], org, target, before[j]);
      if dnd[k].channel == dnd[n].channel {
        OneGiver(dnd, org, source, dnd[n].channel, k, n);
      }
    } else {
      if i :| 0 <= i < |dnd| && dnd[i].client == target && dnd[i].channel == dnd[n].channel {
        OldRowKey(dnd, org, source, target, n, i, before);
      }
      assert Gives(dnd, org, source, dnd[n].channel, n);
    }
  }

  lemma OldRowKey(dnd: seq<DndRow>, org: Option<OrgId>, source: ClientId, target: ClientId, n: nat, i: nat, after: seq<DndRow>)
    requires i < |dnd| && OldRow(dnd, org, source, target, n, i, after)
    ensures after[i].client == dnd[i].client && after[i].channel == dnd[i].channel
  {
  }

  lemma PreservedStep(dnd: seq<DndRow>, org: Option<OrgId>, source: ClientId, target: ClientId, n: nat, before: seq<DndRow>)
    requires UniqueDnd(dnd) && source != target && n < |dnd| && OptOutOf(dnd[n], org, source) && Preserved(dnd, org, source, target, n, before)
    ensures Preserved(dnd, org, source, target, n + 1, Preserve(before, org, target, dnd[n]))
  {
    hide Preserve, UniqueDnd, OldRow, NewRow;
    var after := Preserve(before, org, target, dnd[n]);
    PreserveAt(before, org, target, dnd[n]);
    PreserveUnique(before, org, target, dnd[n]);
    var m := n + 1;
    forall i: nat | i < |dnd| ensures OldRow(dnd, org, source, target, m, i, after) {
      PreservedOld(dnd, org, source, target, n, before, i);
    }
    forall j: nat | |dnd| <= j < |after| ensures NewRow(dnd, org, source, target, m, after, j) {
      PreservedNew(dnd, org, source, target, n, before, j);
    }
  }

  lemma {:induction false} PreserveAllExact(dnd: seq<DndRow>, org: Option<OrgId>, source: ClientId, target: ClientId, n: nat)
    requires UniqueDnd(dnd) && source != target && n <= |dnd|
    ensures Preserved(dnd, org, source, target, n, PreserveAll(dnd, dnd, org, source, target, n))
  {
    hide Preserve, UniqueDnd, OptOutOf;
    if n > 0 {
      hide Preserved;
      PreserveAllExact(dnd, org, source, target, n - 1);
      var before := PreserveAll(dnd, dnd, org, source, target, n - 1);
      if OptOutOf(dnd[n - 1], org, source) {
        PreservedStep(dnd, org, source, target, n - 1, before);
      } else {
        PreservedSkip(dnd, org, source, target, n - 1, before);
      }
    }
  }

  /** The preferences after a merge: every row is as it was, but the target's row for a channel the source had
      opted out of takes that opt-out and keeps its own quiet hours where it has any; where the target had no
      such row it gets the source's; the unique key holds. */
  lemma PreferencesExact(t: Tables, tables: seq<string>, source: ClientId, target: ClientId, org: Option<OrgId>)
    requires Mergeable(t, source, target, org) && UniqueDnd(t.dnd)
    ensures Preserved(t.dnd, org, source, target, |t.dnd|, Merged(t, tables, source, target, org).dnd)
  {
    hide Preserved, PreserveAll;
    PreserveAllExact(t.dnd, org, source, target, |t.dnd|);
  }

  // ---------------------------------------------------------------------------
  // Chains
  // ---------------------------------------------------------------------------

  /** The client absorbed another one. */
  ghost predicate Absorbs(t: Tables, tables: seq<string>, org: Option<OrgId>, chain: seq<Attempt>, client: ClientId) {
    exists c: ClientId :: c != client && Absorber(t, tables, org, chain, c) == client
  }

  /** Some client that ended up as this one had opted out of the channel at the start. */
  ghost predicate SomeOptedOut(t: Tables, tables: seq<string>, org: Option<OrgId>, chain: seq<Attempt>, client: ClientId, channel: Option<Channel>) {
    exists c: ClientId :: Absorber(t, tables, org, chain, c) == client && OptedOut(t.dnd, org, c, channel)
  }

  /** Its consents are withdrawn by the chain: the owner was absorbed, or it absorbed another client and one
      of them had opted out of the channel. */
  ghost predicate ChainWithdraws(t: Tables, tables: seq<string>, org: Option<OrgId>, chain: seq<Attempt>, c: ConsentRow) {
    Marketing(c, org)
    && (Absorber(t, tables, org, chain, c.client) != c.client
        || (Absorbs(t, tables, org, chain, c.client) && SomeOptedOut(t, tables, org, chain, c.client, c.channel)))
  }

  lemma SomeOptedOutAtEnd(t: Tables, tables: seq<string>, org: Option<OrgId>, chain: seq<Attempt>, client: ClientId, channel: Option<Channel>)
    requires Absorber(t, tables, org, chain, client) == client
    ensures SomeOptedOut(t, tables, org, chain, client, channel) <==> Vetoed(TryAll(t, tables, org, chain).dnd, org, client, channel)
  {
    hide OptedOut, Vetoed, Absorber, TryAll;
    OptOutsFollow(t, tables, org, chain, client, channel);
    forall c: ClientId ensures OptedOut(t.dnd, org, c, channel) <==> Vetoed(t.dnd, org, c, channel) {
      OptedOutIsVetoed(t.dnd, org, c, channel);
    }
  }

  /** A merge at the head of a chain, seen from the rest. */
  lemma HeadMerges(t: Tables, tables: seq<string>, org: Option<OrgId>, chain: seq<Attempt>, c: ClientId)
    requires chain != [] && Mergeable(t, chain[0].source, chain[0].target, org)
    ensures var (next, rest, a) := (Try(t, tables, org, chain[0]), chain[1..], chain[0]);
            && Absorber(t, tables, org, chain, c) == Absorber(next, tables, org, rest, if c == a.source then a.target else c)
            && Absorber(next, tables, org, rest, a.source) == a.source
            && (c != a.source ==> Absorber(next, tables, org, rest, c) != a.source)
  {
    DeletedStays(Try(t, tables, org, chain[0]), tables, org, chain[1..], chain[0].source, c);
  }

  lemma HeadAbsorbs(t: Tables, tables: seq<string>, org: Option<OrgId>, chain: seq<Attempt>, client: ClientId)
    requires chain != [] && Mergeable(t, chain[0].source, chain[0].target, org) && client != chain[0].source
    requires Absorber(t, tables, org, chain, client) == client
    ensures Absorbs(t, tables, org, chain, client)
            <==> client == chain[0].target || Absorbs(Try(t, tables, org, chain[0]), tables, org, chain[1..], client)
  {
    hide Absorber, Mergeable;
    var next, rest, a := Try(t, tables, org, chain[0]), chain[1..], chain[0];
    HeadMerges(t, tables, org, chain, client);
    HeadMerges(t, tables, org, chain, a.source);
    if c: ClientId :| c != client && Absorber(t, tables, org, chain, c) == client {
      HeadMerges(t, tables, org, chain, c);
      var c': ClientId := if c == a.source then a.target else c;
      assert Absorber(next, tables, org, rest, c') == client;
    }
    if client == a.target {
      assert Absorber(t, tables, org, chain, a.source) == client;
    } else if c: ClientId :| c != client && Absorber(next, tables, org, rest, c) == client {
      HeadMerges(t, tables, org, chain, c);
      assert c != a.source;
      assert Absorber(t, tables, org, chain, c) == client;
    }
  }

  /** The head of the chain and the rest withdraw together what the chain does. */
  lemma WithdrawnInTwo(t: Tables, tables: seq<string>, org: Option<OrgId>, chain: seq<Attempt>, c: ConsentRow)
    requires chain != [] && Mergeable(t, chain[0].source, chain[0].target, org) && Marketing(c, org)
    ensures var (next, rest, a) := (Try(t, tables, org, chain[0]), chain[1..], chain[0]);
            ChainWithdraws(t, tables, org, chain, c)
            <==> c.client == a.source
                 || (c.client == a.target && Vetoed(next.dnd, org, a.target, c.channel))
                 || ChainWithdraws(next, tables, org, rest, c)
  {
    hide Absorber, Mergeable, Absorbs, SomeOptedOut, Vetoed, TryAll, Try;
    var next, rest, a := Try(t, tables, org, chain[0]), chain[1..], chain[0];
    HeadMerges(t, tables, org, chain, c.client);
    if c.client == a.source {
      HeadMerges(t, tables, org, chain, a.target);
      SourceIsNotTarget(t, a, org);
    } else if Absorber(t, tables, org, chain, c.client) == c.client {
      HeadAbsorbs(t, tables, org, chain, c.client);
      SomeOptedOutAtEnd(t, tables, org, chain, c.client, c.channel);
      SomeOptedOutAtEnd(next, tables, org, rest, c.client, c.channel);
      TryAllRest(t, tables, org, chain);
      if c.client == a.target {
        TargetOnly(next, tables, org, rest, c.client, c.channel);
      }
    }
  }

  lemma SourceIsNotTarget(t: Tables, a: Attempt, org: Option<OrgId>)
    requires Mergeable(t, a.source, a.target, org)
    ensures a.source != a.target
  {
  }

  lemma TryAllRest(t: Tables, tables: seq<string>, org: Option<OrgId>, chain: seq<Attempt>)
    requires chain != []
    ensures TryAll(t, tables, org, chain) == TryAll(Try(t, tables, org, chain[0]), tables, org, chain[1..])
  {
    hide Try;
  }

  /** Opted out now, or by a client absorbed later. */
  lemma TargetOnly(t: Tables, tables: seq<string>, org: Option<OrgId>, chain: seq<Attempt>, client: ClientId, channel: Option<Channel>)
    requires Absorber(t, tables, org, chain, client) == client
    ensures SomeOptedOut(t, tables, org, chain, client, channel)
            <==> Vetoed(t.dnd, org, client, channel)
                 || (Absorbs(t, tables, org, chain, client) && SomeOptedOut(t, tables, org, chain, client, channel))
  {
    hide OptedOut, Vetoed, Absorber;
    OptedOutIsVetoed(t.dnd, org, client, channel);
    if c: ClientId :| Absorber(t, tables, org, chain, c) == client && OptedOut(t.dnd, org, c, channel) {
      if c == client {
        assert Vetoed(t.dnd, org, client, channel);
      }
    }
  }

  /** After any chain of merges a consent is withdrawn if and only if it was at the start, or it is a
      marketing consent of the organization whose owner was absorbed, or whose owner absorbed another client
      and it or one of those it absorbed had opted out of the channel. Every other consent, and all else about
      each, is as it was. */
  lemma {:induction false} ConsentsFollow(t: Tables, tables: seq<string>, org: Option<OrgId>, chain: seq<Attempt>, i: nat)
    requires i < |t.consents|
    ensures var c := t.consents[i];
            && |TryAll(t, tables, org, chain).consents| == |t.consents|
            && TryAll(t, tables, org, chain).consents[i] == c.(withdrawn := c.withdrawn || ChainWithdraws(t, tables, org, chain, c))
    decreases |chain|
  {
    hide ChainWithdraws, Vetoed, OptedOut, Merged, Mergeable;
    if chain == [] {
      NothingWithdraws(t, tables, org, t.consents[i]);
    } else {
      var a, c := chain[0], t.consents[i];
      var next := Try(t, tables, org, a);
      if Mergeable(t, a.source, a.target, org) {
        ConsentsExact(t, tables, a.source, a.target, org, i);
        VetoesUnite(t, tables, a.source, a.target, org, a.target, c.channel);
        OptedOutIsVetoed(t.dnd, org, a.source, c.channel);
        OptedOutIsVetoed(t.dnd, org, a.target, c.channel);
        ConsentsFollow(next, tables, org, chain[1..], i);
        if Marketing(c, org) {
          WithdrawnInTwo(t, tables, org, chain, c);
        } else {
          OnlyMarketing(t, tables, org, chain, c);
          OnlyMarketing(next, tables, org, chain[1..], c);
        }
        SameOwner(next, tables, org, chain[1..], c, next.consents[i]);
      } else {
        ConsentsFollow(next, tables, org, chain[1..], i);
        FailedHead(t, tables, org, chain, c);
      }
    }
  }

  lemma NothingWithdraws(t: Tables, tables: seq<string>, org: Option<OrgId>, c: ConsentRow)
    ensures !ChainWithdraws(t, tables, org, [], c)
  {
  }

  lemma OnlyMarketing(t: Tables, tables: seq<string>, org: Option<OrgId>, chain: seq<Attempt>, c: ConsentRow)
    requires !Marketing(c, org)
    ensures !ChainWithdraws(t, tables, org, chain, c)
  {
  }

  lemma SameOwner(t: Tables, tables: seq<string>, org: Option<OrgId>, chain: seq<Attempt>, c: ConsentRow, c': ConsentRow)
    requires c'.(withdrawn := c.withdrawn) == c
    ensures ChainWithdraws(t, tables, org, chain, c) <==> ChainWithdraws(t, tables, org, chain, c')
  {
  }

  /** An attempt that fails is as if it had not been made. */
  lemma FailedHead(t: Tables, tables: seq<string>, org: Option<OrgId>, chain: seq<Attempt>, c: ConsentRow)
    requires chain != [] && !Mergeable(t, chain[0].source, chain[0].target, org)
    ensures ChainWithdraws(t, tables, org, chain, c) <==> ChainWithdraws(t, tables, org, chain[1..], c)
  {
    hide OptedOut;
    forall x: ClientId ensures Absorber(t, tables, org, chain, x) == Absorber(t, tables, org, chain[1..], x) {
    }
  }

  /** A survivor keeps every permission on a channel that no client it absorbed, and not itself, had opted out
      of. */
  lemma SurvivorKeepsPermission(t: Tables, tables: seq<string>, org: Option<OrgId>, chain: seq<Attempt>, i: nat)
    requires i < |t.consents| && Absorber(t, tables, org, chain, t.consents[i].client) == t.consents[i].client
    requires forall c: ClientId | Absorber(t, tables, org, chain, c) == t.consents[i].client :: !OptedOut(t.dnd, org, c, t.consents[i].channel)
    ensures i < |TryAll(t, tables, org, chain).consents| && TryAll(t, tables, org, chain).consents[i] == t.consents[i]
  {
    hide OptedOut, Absorber, TryAll;
    ConsentsFollow(t, tables, org, chain, i);
  }

  /** A consent for another purpose, or of another organization, is never touched. */
  lemma OtherConsentsStay(t: Tables, tables: seq<string>, org: Option<OrgId>, chain: seq<Attempt>, i: nat)
    requires i < |t.consents| && (t.consents[i].purpose != "marketing" || t.consents[i].org != org)
    ensures i < |TryAll(t, tables, org, chain).consents| && TryAll(t, tables, org, chain).consents[i] == t.consents[i]
  {
    hide TryAll;
    ConsentsFollow(t, tables, org, chain, i);
  }
}
