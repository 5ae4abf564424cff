/** The host firewall controller: desired rules and an ownership list kept on disk,
    reconciled against a remote rule table that also holds rules made by hand. */
module HostPolicy {
  import opened Text
  import opened Wrappers
  import opened RfwRules
  import opened Normalize

  const MAX_ROWS := 256
  const IDS := 0x8000_0000

  /** The cast of an answered id to 32 bits. */
  function Narrow(n: int): int {
    (n + IDS) % (2 * IDS) - IDS
  }

  /** What the agent takes down of an answered id. */
  function Recorded(n: int): Option<int> {
    if Narrow(n) < 1 then None else Some(Narrow(n))
  }

  /** An answered id is taken down as it is if and only if it is positive and fits; for every
      rule there is an answer beyond 32 bits that makes the agent remember that rule. */
  lemma RecordedIff(n: int, m: int)
    ensures Recorded(n) == Some(n) <==> 1 <= n < IDS
    ensures 1 <= m < IDS ==> Recorded(m + 2 * IDS) == Some(m)
  {
  }

  datatype State = State(revision: nat, rules: seq<Rule>, managed: seq<Managed>)

  /** Requests sent by reconciliation; a deletion with the table it finds. */
  datatype Event = Posted(want: Rule) | Deleted(id: int, found: map<int, Raw>)

  datatype Report = Report(inSync: bool, rows: map<int, Sync>, expected: seq<Sync>,
                           managedCount: nat, driftCount: nat, missingCount: nat)

  /** A rule as readback showed it. */
  datatype Shown = Shown(raw: Raw, origin: string, syncState: string, managedKey: string) {
    predicate IsManual() {
      origin == "manual" && syncState == "manual" && managedKey == ""
    }
  }

  /** What becomes of a requested policy. */
  datatype Answer = Applied | Rejected | Stale | SilentChange | NotSaved | NotReconciled

  /** What becomes of a request to delete a rule made by hand. */
  datatype Deletion = Gone | NotManual | IsManaged | Unlisted | Changed | Unanswered

  class Agent {
    /** Nobody else touches the table. */
    const quiet: bool
    const codec: Codec

    var memory: State
    var disk: State
    /** The remote table, every id it ever had, and those of rules made by others. */
    var table: map<int, Raw>
    var used: set<int>
    var manual: set<int>
    /** Ids that answers to this agent's own creation requests named. */
    var granted: set<int>
    /** Ids of the rules those requests created, and of those it does not remember: the
        answer was lost, or the process died before writing the rule down. */
    ghost var created: set<int>
    ghost var strays: set<int>
    ghost var log: seq<Event>
    /** The process has died: whatever it would still do has no effect. */
    var dead: bool

    /** What holds at every moment: only granted ids are remembered, in memory and on disk,
        and only granted ids were ever deleted. */
    ghost predicate Valid()
      reads this
    {
      && Faithful(codec) && Owned(memory) && Owned(disk)
      && granted <= created <= used && manual <= used && table.Keys <= used
      && created !! manual
      && Accounts(memory.managed, disk.managed, table.Keys, created, strays)
      && (forall i :: 0 <= i < |log| && log[i].Deleted? ==> log[i].id in granted)
    }

    ghost predicate Owned(s: State)
      reads this
    {
      && UniqueKeys(s.rules) && UniqueIds(s.managed) && Loadable(codec, s)
      && forall i :: 0 <= i < |s.managed| ==> s.managed[i].id in granted
    }

    constructor (codec: Codec, quiet: bool, rows: map<int, Raw>)
      requires Faithful(codec)
      ensures Valid() && table == rows && manual == rows.Keys && granted == created == strays == {} && log == [] && !dead
      ensures this.quiet == quiet && this.codec == codec && memory == disk
    {
      this.quiet, this.codec := quiet, codec;
      memory, disk := State(0, [], []), State(0, [], []);
      table, used, manual, granted := rows, rows.Keys, rows.Keys, {};
      created, strays, log, dead := {}, {}, [], false;
    }

    // ----- the outside -----

    /** Other users of the table: rules edited, deleted, and created under new ids. */
    method Others()
      requires Valid()
      modifies this`table, this`used, this`manual
      ensures Valid() && old(used) <= used
      ensures old(manual) <= manual
      ensures NoReturn(old(used), old(table), table)
      ensures quiet ==> table == old(table) && used == old(used) && manual == old(manual)
    {
      hide Accounts, Loadable, Faithful;
      if !quiet {
        var t: map<int, Raw> := *;
        var fresh_ := t.Keys - table.Keys;
        if fresh_ !! used {
          AccountsLess(memory.managed, disk.managed, table.Keys, created, strays, t.Keys);
          table, used, manual := t, used + fresh_, manual + fresh_;
        }
      }
    }

    /** Reads the table; `heard` tells whether RFW answered. */
    method List() returns (r: Option<map<int, Raw>>, ghost heard: bool)
      requires Valid()
      modifies this`table, this`used, this`manual, this`dead
      ensures Valid() && old(used) <= used
      ensures old(manual) <= manual
      ensures old(dead) ==> dead
      ensures quiet ==> table == old(table) && used == old(used)
      ensures r.Some? ==> !dead && r.value == table
      ensures r.Some? <==> heard && |table| <= 256 && forall id :: id in table ==> id >= 1
    {
      hide Accounts, Loadable, Faithful;
      Others();
      var fail, die: bool := *, *;
      dead := dead || die;
      heard := !dead && !fail;
      r := if dead || fail || |table| > MAX_ROWS || exists id :: id in table && id < 1 then None else Some(table);
    }

    /** The table gains a rule of this agent, which it does not remember yet. */
    method Enter(id: int, raw: Raw, answered: bool)
      requires Valid() && id !in used
      modifies this`table, this`used, this`granted, this`created, this`strays
      ensures Valid() && table == old(table)[id := raw] && used == old(used) + {id}
      ensures created == old(created) + {id} && strays == old(strays) + {id} && strays - {id} == old(strays)
      ensures granted == if answered then old(granted) + {id} else old(granted)
    {
      assert strays <= created;
      hide Accounts, Loadable, Faithful, UniqueIds, UniqueKeys;
      AccountsCreated(memory.managed, disk.managed, table.Keys, created, strays, id);
      assert table[id := raw].Keys == table.Keys + {id};
      table, used, created, strays := table[id := raw], used + {id}, created + {id}, strays + {id};
      granted := if answered then granted + {id} else granted;
    }

    /** Asks for a rule. The answer names its new id, or is lost, with the rule created or
        not; a created rule is listed as one that matches. */
    method Post(want: Rule) returns (r: Option<int>)
      requires Valid()
      modifies this`table, this`used, this`manual, this`granted, this`created, this`strays, this`log, this`dead
      ensures Valid() && old(used) <= used && old(granted) <= granted
      ensures old(manual) <= manual
      ensures old(dead) ==> dead && r.None?
      ensures log == old(log) || log == old(log) + [Posted(want)]
      ensures !old(dead) ==> log == old(log) + [Posted(want)]
      ensures NoReturn(old(used), old(table), table)
      ensures r.Some? ==> !dead && r.value >= 1 && r.value !in old(used) && r.value in granted && r.value in strays
      ensures old(created) <= created && strays == old(strays) + (created - old(created))
      ensures r.Some? ==> created == old(created) + {r.value}
      ensures r.Some? ==> strays - {r.value} == old(strays)
      ensures r.Some? ==> r.value in table && RawMatches(table[r.value], want)
      ensures r.Some? && quiet ==> table == old(table)[r.value := table[r.value]]
      ensures r.Some? && quiet ==> used == old(used) + {r.value}
    {
      hide Accounts, Loadable, Faithful, RawMatches, UniqueIds, UniqueKeys;
      Others();
      if dead {
        return None;
      }
      log := log + [Posted(want)];
      var id: int, raw: Raw := *, *;
      var lost, die: bool := *, *;
      dead := die;
      if !(1 <= id < IDS) || id in used || !RawMatches(raw, want) {
        return None;
      }
      RecordedIff(id, id);
      Enter(id, raw, !lost && !dead);
      r := if lost || dead then None else Recorded(id);
    }

    /** Asks for a rule to be deleted; a positive answer (done, or not found) means it is
        gone, any other leaves that open. */
    method Remove(id: int) returns (ok: bool)
      requires Valid() && id in granted
      modifies this`table, this`used, this`manual, this`log, this`dead
      ensures Valid() && old(used) <= used
      ensures old(manual) <= manual
      ensures old(dead) ==> dead && !ok
      ensures ok ==> !dead && id !in table
      ensures NoReturn(old(used), old(table), table)
      ensures quiet ==> used == old(used) && (table == old(table) || table == old(table) - {id})
      ensures quiet && !old(dead) ==> log == old(log) + [Deleted(id, old(table))]
      ensures !old(dead) ==> exists t :: log == old(log) + [Deleted(id, t)]
      ensures old(dead) ==> log == old(log)
    {
      hide Accounts, Loadable, Faithful;
      Others();
      if dead {
        return false;
      }
      log := log + [Deleted(id, table)];
      var effect, answer, die: bool := *, *, *;
      if effect {
        AccountsLess(memory.managed, disk.managed, table.Keys, created, strays, (table - {id}).Keys);
        table := table - {id};
      }
      dead := die;
      ok := !dead && answer && id !in table;
    }

    method Save() returns (ok: bool)
      requires Valid()
      modifies this`disk, this`dead
      ensures Valid()
      ensures old(dead) ==> dead && disk == old(disk)
      ensures disk == old(disk) || disk == memory
      ensures ok ==> !dead && disk == memory
    {
      hide Loadable, Faithful;
      var fail, die: bool := *, *;
      if !dead && !fail {
        disk := memory;
      }
      ok := !dead && !fail && !die;
      dead := dead || die;
    }

    /** Validates what a file holds, and normalises its policy again. */
    method Load(s: State) returns (r: Option<State>)
      ensures r.Some? <==> (s.revision > 0 ==> Acceptable(codec, s.rules)) && WellOwned(s.managed)
      ensures r.Some? ==> r.value.revision == s.revision && r.value.managed == s.managed
      ensures r.Some? ==> if s.revision > 0 then NormalOf(codec, s.rules, r.value.rules) else r.value.rules == s.rules
    {
      hide Acceptable, NormalOf, NormalRule;
      var rules := s.rules;
      if s.revision > 0 {
        var normal := NormalizePolicy(codec, s.rules);
        if normal.None? {
          return None;
        }
        rules := normal.value;
      }
      if exists i :: 0 <= i < |s.managed| && (s.managed[i].key == "" || s.managed[i].id < 1) {
        return None;
      }
      return Some(s.(rules := rules));
    }

    /** The agent is started again and reads its state back, which always succeeds: what it
        stores is in normal form. What it had not stored it no longer remembers. */
    method Restart()
      requires Valid()
      modifies this`memory, this`strays, this`dead
      ensures Valid() && !dead && memory == disk
      ensures strays == old(strays) + old(Unsaved(memory, disk)) && Unsaved(memory, disk) == {}
    {
      var loaded := Load(disk);
      LoadsItself(codec, disk, loaded);
      AccountsReloaded(memory.managed, disk.managed, table.Keys, created, strays);
      UnsavedSelf(disk);
      strays := strays + Unsaved(memory, disk);
      memory, dead := loaded.value, false;
    }

    // ----- reconciliation -----

    /** Creates what is missing, and selects the rules that serve the desired ones. */
    method Establish(listed: map<int, Raw>) returns (ok: bool, selected: set<int>, actual: set<int>)
      requires Valid() && !dead && listed == table
      modifies this`memory, this`disk, this`table, this`used, this`manual, this`granted, this`created, this`strays, this`log, this`dead
      ensures Valid()
      ensures old(manual) <= manual
      ensures memory.rules == old(memory.rules) && memory.revision == old(memory.revision)
      ensures old(memory.managed) <= memory.managed && old(used) <= used
      ensures ok ==> !dead && LiveListed(memory.managed, table, actual)
      ensures OnlyPosts(old(log), log)
      ensures SamePolicy(disk, old(disk)) || SamePolicy(disk, memory)
      ensures Ledger(ok, old(strays), strays, old(created), created, old(Unsaved(memory, disk)), Unsaved(memory, disk))
      ensures var kept := KeepAll(old(memory.rules), 0, old(memory.managed), listed, {});
              if kept.Some?
              then ok && log == old(log) && selected == kept.value && actual == listed.Keys && memory == old(memory) && disk == old(disk)
              else log != old(log) && (ok ==> disk == memory)
      ensures quiet && ok ==> Covers(memory.rules, |memory.rules|, memory.managed, table, selected)
      ensures quiet && ok ==> actual == table.Keys && Extends(old(table), table, memory.managed[|old(memory.managed)|..])
      ensures quiet && ok ==> KeptFirst(memory.rules, |memory.rules|, old(memory.managed), listed, selected)
    {
      hide RawMatches, Fingerprint, KeepAll, FirstKept, Progress, Fresh, Accounts, Loadable, Faithful, Unsaved, Ledger,
           UniqueIds, UniqueKeys, OnlyPosts;
      PostsNothing(log);
      LedgerStart(strays, created, Unsaved(memory, disk));
      selected, actual := {}, listed.Keys;
      ghost var rules, before := memory.rules, memory.managed;
      ghost var added: seq<Managed> := [];
      ghost var clean := true;
      var rows := listed;
      var k := 0;
      NoProgress(rules, before, table, old(used), listed);
      while k < |memory.rules|
        invariant Valid() && !dead && 0 <= k <= |rules| && actual == rows.Keys && old(used) <= used && old(manual) <= manual
        invariant memory == State(old(memory.revision), rules, before + added)
        invariant Fresh(added, old(used), rules, k)
        invariant Ledger(true, old(strays), strays, old(created), created, old(Unsaved(memory, disk)), Unsaved(memory, disk))
        invariant NoReturn(old(used), listed, table) && listed.Keys <= actual && forall e :: e in added ==> e.id in actual
        invariant OnlyPosts(old(log), log)
        invariant clean ==> log == old(log) && added == [] && rows == listed && disk == old(disk)
        invariant !clean ==> disk == memory
        invariant SamePolicy(disk, old(disk)) || SamePolicy(disk, memory)
        invariant clean ==> KeepAll(rules, 0, before, listed, {}) == KeepAll(rules, k, before, listed, selected)
        invariant !clean ==> log != old(log) && KeepAll(rules, 0, before, listed, {}).None?
        invariant quiet ==> Progress(rules, k, before, added, listed, old(used), rows, table, selected)
      {
        var desired := memory.rules[k];
        var kept := FirstKept(memory.managed, 0, desired, rows, selected);
        KeepAllStep(rules, k, before, listed, selected);
        if kept.Some? {
          var m := memory.managed[kept.value];
          if quiet {
            ProgressKeep(rules, k, before, added, listed, old(used), rows, table, selected);
          }
          FreshNext(added, old(used), rules, k);
          selected := selected + {m.id};
        } else {
          clean := false;
          ghost var table0, used0, log0 := table, used, log;
          ghost var strays0, created0, unsaved0 := strays, created, Unsaved(memory, disk);
          var id := Create(desired);
          PostsMore(old(log), log0, log, desired);
          LedgerNext(id.Some?, old(strays), strays0, strays, old(created), created0, created,
                     old(Unsaved(memory, disk)), unsaved0, Unsaved(memory, disk));
          if id.None? {
            return false, selected, actual;
          }
          ghost var m := Managed(desired.key, id.value, Fingerprint(desired));
          if quiet {
            ProgressPost(rules, k, before, added, listed, old(used), rows, table0, table, selected, m, RawOf(desired), used0);
          }
          FreshPost(added, old(used), rules, k, m);
          assert before + added + [m] == before + (added + [m]);
          added := added + [m];
          selected := selected + {id.value};
          rows := rows[id.value := RawOf(desired)];
          actual := rows.Keys;
        }
        k := k + 1;
      }
      KeepAllEnd(rules, before, listed, selected);
      assert (before + added)[|before|..] == added;
      assert LiveListed(before + added, table, actual);
      if quiet {
        ProgressMade(rules, before, added, listed, old(used), rows, table, selected);
      }
      ok := true;
    }

    /** A stray becomes an owned rule, in memory. */
    method Remember(m: Managed, want: Rule)
      requires Valid() && m.id in granted && m.id in strays && m.id >= 1 && want in memory.rules && m.key == want.key
      modifies this`memory, this`strays
      ensures Valid() && memory == old(memory).(managed := old(memory.managed) + [m]) && strays == old(strays) - {m.id}
    {
      forall i | 0 <= i < |memory.managed| ensures memory.managed[i].id in created - strays {
        InIds(memory.managed, memory.managed[i]);
        hide Ids, Loadable, Faithful, UniqueIds, UniqueKeys;
      }
      hide Accounts, Loadable, Faithful;
      UniqueAppend(memory.managed, m, created - strays);
      AccountsRemembered(memory.managed, disk.managed, table.Keys, created, strays, m);
      LoadableMore(codec, memory, m, want);
      strays := strays - {m.id};
      memory := memory.(managed := memory.managed + [m]);
    }

    /** Creates a rule and writes its ownership down. */
    method Create(desired: Rule) returns (r: Option<int>)
      requires Valid() && !dead && desired in memory.rules
      modifies this`memory, this`disk, this`table, this`used, this`manual, this`granted, this`created, this`strays, this`log, this`dead
      ensures Valid() && old(used) <= used
      ensures old(manual) <= manual && NoReturn(old(used), old(table), table)
      ensures memory.rules == old(memory.rules) && memory.revision == old(memory.revision)
      ensures old(memory.managed) <= memory.managed
      ensures SamePolicy(disk, old(disk)) || SamePolicy(disk, memory)
      ensures log == old(log) + [Posted(desired)]
      // A rule whose answer is lost is a stray; one that is answered is remembered at once.
      ensures strays == if memory == old(memory) then old(strays) + (created - old(created)) else old(strays)
      ensures r.Some? ==> disk == memory && memory != old(memory)
      ensures Ledger(r.Some?, old(strays), strays, old(created), created, old(Unsaved(memory, disk)), Unsaved(memory, disk))
      ensures r.Some? ==> !dead && r.value !in old(used)
                          && memory.managed == old(memory.managed) + [Managed(desired.key, r.value, Fingerprint(desired))]
      ensures r.Some? && quiet ==> r.value in table && RawMatches(table[r.value], desired)
                                   && table == old(table)[r.value := table[r.value]]
    {
      hide RawMatches, Fingerprint, Accounts, Loadable, Faithful, UniqueIds, UniqueKeys;
      r := Post(desired);
      if r.None? {
        return;
      }
      assert created - old(created) == {r.value};
      Remember(Managed(desired.key, r.value, Fingerprint(desired)), desired);
      assert |memory.managed| > |old(memory.managed)|;
      ghost var m := memory.managed[|memory.managed| - 1];
      UnsavedAppend(old(memory), disk, m);
      var saved := Save();
      UnsavedSelf(memory);
      hide Unsaved;
      if !saved {
        r := None;
      }
    }

    /** Deletes and forgets the remembered rules that were not selected. */
    method Prune(selected: set<int>, actual: set<int>) returns (ok: bool)
      requires Valid() && !dead && (quiet ==> actual == table.Keys) && LiveListed(memory.managed, table, actual)
      modifies this`memory, this`disk, this`table, this`used, this`manual, this`log, this`dead
      ensures Valid()
      ensures old(manual) <= manual && Unsaved(memory, disk) <= old(Unsaved(memory, disk))
      ensures memory.rules == old(memory.rules) && memory.revision == old(memory.revision)
      ensures SamePolicy(disk, old(disk)) || SamePolicy(disk, memory)
      ensures AllSelected(old(memory.managed), selected) ==> ok && memory == old(memory) && disk == old(disk)
      ensures ok && !AllSelected(old(memory.managed), selected) ==> disk == memory
      ensures ok ==> !dead && memory.managed == KeepIds(old(memory.managed), selected)
      ensures Deletions(old(log), log, selected, quiet, old(table))
      ensures ok ==> (log == old(log) <==> NoneLive(old(memory.managed), selected, actual))
      ensures NoneLive(old(memory.managed), selected, actual) ==> log == old(log)
      ensures quiet && ok ==> table == old(table) - (Ids(old(memory.managed)) - selected)
    {
      hide KeepIds, Deletions, Ids, NoneLive, Pruned, Window, Round, UniqueIds, UniqueKeys, Accounts, Loadable, Faithful, Unsaved, LiveListed, NoReturn, AllSelected, SelectedTo;
      ghost var all, p, table0 := memory.managed, 0, table;
      ghost var saved := false;
      PruneStart(all, selected, actual, table0, log, quiet);
      var i := 0;
      while i < |memory.managed|
        invariant Valid() && !dead && old(manual) <= manual && Unsaved(memory, disk) <= old(Unsaved(memory, disk))
        invariant memory.rules == old(memory.rules) && memory.revision == old(memory.revision)
        invariant Window(memory.managed, i, all, p, selected) && LiveListed(memory.managed, table, actual)
        invariant Pruned(all, p, selected, actual, quiet, table0, table, old(log), log)
        invariant p <= |all| && (SamePolicy(disk, old(disk)) || SamePolicy(disk, memory))
        invariant saved ==> disk == memory && !AllSelected(all, selected)
        invariant !saved ==> memory == old(memory) && disk == old(disk) && SelectedTo(all, p, selected)
        decreases |all| - p
      {
        WindowAt(memory.managed, i, all, p, selected);
        SelectedNext(all, p, selected);
        ghost var log0, found, was, ids := log, table, memory.managed, used;
        if memory.managed[i].id in selected {
          i := i + 1;
        } else {
          NotListed(memory.managed, i, table, actual);
          ok := PruneOne(i, memory.managed[i].id in actual);
          saved := true;
          if !ok {
            PrunedStop(all, p, selected, actual, quiet, table0, found, old(log), log0, log);
            return;
          }
          LiveCut(was, i, ids, found, table, actual);
        }
        PrunedStep(all, p, selected, actual, quiet, table0, found, table, old(log), log0, log);
        p := p + 1;
      }
      WindowEnd(memory.managed, i, all, p, selected);
      PrunedAll(all, selected, actual, quiet, table0, table, old(log), log);
      ok := true;
    }

    /** Deletes rule `i` if it is live, and forgets it. */
    method PruneOne(i: nat, live: bool) returns (ok: bool)
      requires Valid() && !dead && i < |memory.managed|
      requires !live ==> memory.managed[i].id !in table
      modifies this`memory, this`disk, this`table, this`used, this`manual, this`log, this`dead
      ensures Valid()
      ensures old(manual) <= manual && Unsaved(memory, disk) <= old(Unsaved(memory, disk))
      ensures memory.rules == old(memory.rules) && memory.revision == old(memory.revision)
      ensures SamePolicy(disk, old(disk)) || SamePolicy(disk, memory)
      ensures ok ==> disk == memory
      ensures ok ==> !dead && memory.managed == old(memory.managed[..i] + memory.managed[i + 1..])
      ensures old(used) <= used && NoReturn(old(used), old(table), table)
      ensures Round(old(memory.managed[i].id), live, quiet, old(table), old(log), log)
      ensures quiet && ok ==> table == old(table) - {old(memory.managed[i].id)}
    {
      hide Accounts, Loadable, Faithful, Unsaved;
      var owned := memory.managed[i];
      if live {
        ok := Remove(owned.id);
        if !ok {
          return;
        }
      }
      UniqueCut(memory.managed, i);
      CutOwned(memory.managed, i, granted);
      AccountsCut(memory.managed, disk.managed, table.Keys, created, strays, i);
      LoadableCut(codec, memory, i);
      UnsavedCut(memory, disk, i);
      memory := memory.(managed := memory.managed[..i] + memory.managed[i + 1..]);
      UnsavedSelf(memory);
      ok := Save();
    }

    method CheckProtocols(caps: Option<set<string>>) returns (ok: bool)
      ensures ok <==> Supported(memory.rules, caps)
    {
      for k := 0 to |memory.rules|
        invariant forall j :: 0 <= j < k ==>
          if caps.Some? then memory.rules[j].protocol in caps.value else memory.rules[j].protocol != "mtproto"
      {
        var protocol := memory.rules[k].protocol;
        if (caps.Some? && protocol !in caps.value) || (caps.None? && protocol == "mtproto") {
          return false;
        }
      }
      ok := true;
    }

    /** Brings the table in line with the policy; `caps` are the protocols RFW reports to
        support, if it does. */
    method ReconcileRfw(caps: Option<set<string>>) returns (ok: bool)
      requires Valid() && !dead
      modifies this`memory, this`disk, this`table, this`used, this`manual, this`granted, this`created, this`strays, this`log, this`dead
      ensures Valid()
      ensures old(manual) <= manual
      ensures memory.rules == old(memory.rules) && memory.revision == old(memory.revision)
      ensures old(log) <= log
      ensures SamePolicy(disk, old(disk)) || SamePolicy(disk, memory)
      // Without interference the state is saved exactly when something was due.
      ensures quiet && NothingDue(old(memory), old(table)) ==> memory == old(memory) && disk == old(disk)
      ensures quiet && ok && !NothingDue(old(memory), old(table)) ==> disk == memory
      ensures Ledger(ok, old(strays), strays, old(created), created, old(Unsaved(memory, disk)), Unsaved(memory, disk))
      // Without interference, success means one owned matching rule per desired key,
      // everybody else's rules as they were, and the rules that served before still there.
      ensures quiet && ok ==> Settled(memory.rules, memory.managed, table) && Says(memory.rules, memory.managed, table)
      ensures quiet && ok ==> OthersKept(old(table), table, old(memory.managed), memory.managed)
      ensures quiet && ok ==> ServingKept(memory.rules, old(memory.managed), old(table), memory.managed, table)
      // At every deletion a live matching rule of this agent stands for every desired rule.
      ensures quiet ==> forall i :: |old(log)| <= i < |log| && log[i].Deleted? ==>
                          AllStanding(memory.rules, granted, log[i].found, log[i].id)
      ensures quiet && ok ==> forall i :: |old(log)| <= i < |log| && log[i].Deleted? ==>
                                log[i].id !in Ids(memory.managed)
      // Nothing is sent for a policy with a protocol that is not supported.
      ensures !Supported(old(memory.rules), caps) ==> !ok && log == old(log) && table == old(table)
      // Requests are sent exactly when there is something to do.
      ensures quiet && Idle(old(memory.rules), old(memory.managed), old(table)) ==> log == old(log)
      ensures quiet && ok && log == old(log) ==> Idle(old(memory.rules), old(memory.managed), old(table))
    {
      hide RawMatches, Fingerprint, KeepAll, FirstKept, Covers, Extends, KeptFirst, KeepIds, Ids, Settled, Deletions, NoneLive,
           OthersKept, ServingKept, AllStanding, Accounts, Loadable, Faithful, LiveListed, Unsaved, Says, ReadsInSync, Supported;
      UnsavedStart(strays, created, memory, disk);
      if memory.rules == [] && memory.managed == [] {
        NothingToDo(table);
        NothingSaid(table);
        NoneUnsupported(caps);
        return true;
      }
      var supported := CheckProtocols(caps);
      if !supported {
        return false;
      }
      var listed, _ := List();
      if listed.None? {
        return false;
      }
      var selected, actual;
      ok, selected, actual := Establish(listed.value);
      ghost var m1, table1, log1 := memory.managed, table, log;
      if !ok {
        PostsNotDeletes(old(log), log1);
        return;
      }
      ok := Prune(selected, actual);
      LogAppends(old(log), log1, log, selected, quiet, table1);
      if quiet {
        IdleMeaning(old(memory.rules), old(memory.managed), old(table), selected);
        forall i | |old(log)| <= i < |log| && log[i].Deleted?
          ensures AllStanding(memory.rules, granted, log[i].found, log[i].id)
        {
          StandingFrom(memory.rules, m1, table1, selected, granted, log[i].found, log[i].id);
        }
        if ok {
          SettledFrom(memory.rules, m1, table1, selected);
          SettledReadsInSync(memory.rules, memory.managed, table);
          InSyncSays(codec, memory, table);
          OthersFrom(old(table), table1, old(memory.managed), m1, selected);
          ServingFrom(memory.rules, old(memory.managed), old(table), m1, table1, selected);
          forall i | |old(log)| <= i < |log| && log[i].Deleted? ensures log[i].id !in Ids(memory.managed) {
            KeptIds(m1, selected);
          }
        }
      }
    }

    /** Takes the normal form of a policy over if it is newer (or the current one again), then
        reconciles. Nothing is sent for an unacceptable, stale or silently changed policy. */
    method Apply(revision: nat, requested: seq<Rule>, caps: Option<set<string>>) returns (r: Answer)
      requires Valid() && !dead
      modifies this`memory, this`disk, this`table, this`used, this`manual, this`granted, this`created, this`strays, this`log, this`dead
      ensures Valid()
      ensures old(manual) <= manual
      ensures memory.revision >= old(memory.revision)
      ensures r == Rejected <==> revision < 1 || !Acceptable(codec, requested)
      ensures r == Stale <==> r != Rejected && revision < old(memory.revision)
      ensures r == SilentChange <==> r != Rejected && revision == old(memory.revision) && !NormalOf(codec, requested, old(memory.rules))
      ensures r in {Rejected, Stale, SilentChange} ==>
                memory == old(memory) && disk == old(disk) && table == old(table) && log == old(log)
      ensures r == NotSaved ==> revision > old(memory.revision)
      // Anything else is the policy in memory from then on.
      ensures r in {NotSaved, NotReconciled, Applied} ==> memory.revision == revision && NormalOf(codec, requested, memory.rules)
      ensures Ledger(r == Applied, old(strays), strays, old(created), created, old(Unsaved(memory, disk)), Unsaved(memory, disk))
      // The policy is on disk after a success if and only if it is a new one, was there before,
      // or something else had to be saved.
      ensures r in {NotReconciled, Applied} && (revision > old(memory.revision) || SamePolicy(old(disk), old(memory))) ==>
                SamePolicy(disk, memory)
      ensures quiet && r == Applied && revision == old(memory.revision) ==>
        (SamePolicy(disk, memory) <==> SamePolicy(old(disk), old(memory)) || !NothingDue(old(memory), old(table)))
      ensures quiet && r == Applied ==> Settled(memory.rules, memory.managed, table)
    {
      hide Settled, Idle, OthersKept, ServingKept, AllStanding, NormalRule, Acceptable, Accounts, Faithful, Unsaved;
      if revision < 1 {
        return Rejected;
      }
      var rules := NormalizePolicy(codec, requested);
      if rules.None? {
        return Rejected;
      }
      if revision < memory.revision {
        return Stale;
      }
      assert NormalOf(codec, requested, memory.rules) <==> rules.value == memory.rules;
      if revision == memory.revision {
        if rules.value != memory.rules {
          return SilentChange;
        }
      } else {
        LoadableNew(codec, memory, revision, requested, rules.value);
        memory := State(revision, rules.value, memory.managed);
        UnsavedSame(old(memory), memory, disk);
        UnsavedSelf(memory);
        var saved := Save();
        if !saved {
          return NotSaved;
        }
      }
      hide NormalOf;
      var ok := ReconcileRfw(caps);
      r := if ok then Applied else NotReconciled;
    }

    /** The periodic pass: nothing before the first policy. */
    method Reconcile(caps: Option<set<string>>) returns (ok: bool)
      requires Valid() && !dead
      modifies this`memory, this`disk, this`table, this`used, this`manual, this`granted, this`created, this`strays, this`log, this`dead
      ensures Valid() && memory.rules == old(memory.rules)
      ensures old(manual) <= manual
      ensures old(memory.revision) == 0 ==> ok && memory == old(memory) && table == old(table) && log == old(log)
      ensures Ledger(ok, old(strays), strays, old(created), created, old(Unsaved(memory, disk)), Unsaved(memory, disk))
      ensures quiet && ok && old(memory.revision) != 0 ==> Settled(memory.rules, memory.managed, table)
    {
      hide Settled, Idle, OthersKept, ServingKept, AllStanding, Accounts, Loadable, Faithful, Unsaved;
      if memory.revision == 0 {
        return true;
      }
      ok := ReconcileRfw(caps);
    }

    /** Classifies every listed rule, counting the owned and the drifted ones. */
    method CompareRows(listed: map<int, Raw>) returns (rows: map<int, Sync>, owned: nat, drift: nat)
      ensures rows == map id | id in listed :: RowSync(memory.rules, memory.managed, id, listed[id])
      ensures owned == |Except(rows, {Manual})| && drift == |Except(rows, {Manual, InSync})|
    {
      hide RowSync, Except;
      rows, owned, drift := map[], 0, 0;
      NoneExcept({Manual});
      NoneExcept({Manual, InSync});
      var todo := listed.Keys;
      while exists x :: x in todo
        invariant todo <= listed.Keys && rows.Keys == listed.Keys - todo
        invariant forall id :: id in rows ==> rows[id] == RowSync(memory.rules, memory.managed, id, listed[id])
        invariant owned == |Except(rows, {Manual})| && drift == |Except(rows, {Manual, InSync})|
        decreases todo
        modifies {}
      {
        var id :| id in todo;
        todo := todo - {id};
        var sync := RowSync(memory.rules, memory.managed, id, listed[id]);
        ExceptMore(rows, id, sync, {Manual});
        ExceptMore(rows, id, sync, {Manual, InSync});
        rows := rows[id := sync];
        if sync != Manual {
          owned := owned + 1;
          if sync != InSync {
            drift := drift + 1;
          }
        }
      }
    }

    /** Classifies every desired rule, counting the drifted and the missing ones. */
    method CompareWants(listed: map<int, Raw>) returns (expected: seq<Sync>, drift: nat, missing: nat)
      ensures |expected| == |memory.rules|
      ensures forall k :: 0 <= k < |expected| ==> expected[k] == WantSync(memory.managed, memory.rules[k], listed)
      ensures drift == multiset(expected)[Drifted] && missing == multiset(expected)[Missing]
      ensures drift == 0 && missing == 0 <==> forall k :: 0 <= k < |expected| ==> expected[k] == InSync
    {
      hide WantSync;
      expected, drift, missing := [], 0, 0;
      for k := 0 to |memory.rules|
        invariant |expected| == k
        invariant forall j :: 0 <= j < k ==> expected[j] == WantSync(memory.managed, memory.rules[j], listed)
        invariant drift == multiset(expected)[Drifted] && missing == multiset(expected)[Missing]
        invariant drift == 0 && missing == 0 <==> forall j :: 0 <= j < k ==> expected[j] == InSync
        modifies {}
      {
        var sync := WantSync(memory.managed, memory.rules[k], listed);
        WantStates(memory.managed, memory.rules[k], listed);
        if sync == Missing {
          missing := missing + 1;
        } else if sync == Drifted {
          drift := drift + 1;
        }
        expected := expected + [sync];
      }
    }

    /** Compares the table with the policy, rule by rule. */
    method Readback() returns (r: Option<Report>)
      requires Valid()
      modifies this`table, this`used, this`manual, this`dead
      ensures Valid() && (quiet ==> table == old(table))
      ensures old(manual) <= manual
      ensures old(dead) ==> dead
      ensures r.Some? ==> r.value.rows == map id | id in table :: RowSync(memory.rules, memory.managed, id, table[id])
      ensures r.Some? ==> |r.value.expected| == |memory.rules|
                          && forall k :: 0 <= k < |memory.rules| ==>
                               r.value.expected[k] == WantSync(memory.managed, memory.rules[k], table)
      ensures r.Some? ==> (r.value.inSync <==> ReadsInSync(memory.rules, memory.managed, table))
      ensures r.Some? && r.value.inSync ==> Says(memory.rules, memory.managed, table)
      ensures r.Some? ==> Tallied(r.value)
      ensures |table| > MAX_ROWS || (exists id :: id in table && id < 1) ==> r.None?
    {
      hide RowSync, WantSync, Except, Accounts, Loadable, Faithful, Says;
      var listed, _ := List();
      if listed.None? {
        return None;
      }
      var rows, owned, rowDrift := CompareRows(listed.value);
      var expected, drift, missing := CompareWants(listed.value);
      ExceptNone(rows, {Manual, InSync});
      assert forall id :: id in table ==> rows[id] == RowSync(memory.rules, memory.managed, id, table[id]);
      assert forall k :: 0 <= k < |memory.rules| ==> expected[k] == WantSync(memory.managed, memory.rules[k], table);
      if ReadsInSync(memory.rules, memory.managed, table) {
        InSyncSays(codec, memory, table);
      }
      drift := drift + rowDrift;
      return Some(Report(drift == 0 && missing == 0, rows, expected, owned, drift, missing));
    }

    /** Deletes a rule shown as made by hand, if it is still as the operator saw it; `listed`
        is the table as read just before, if it was, and `asked` whether a deletion was asked
        for. */
    method DeleteManual(id: int, seen: Shown) returns (r: Deletion, ghost listed: Option<map<int, Raw>>, ghost asked: bool)
      requires Valid()
      modifies this`table, this`used, this`manual, this`dead
      ensures Valid()
      ensures old(manual) <= manual
      ensures r == NotManual <==> id < 1 || seen.origin != "manual" || seen.syncState != "manual" || seen.managedKey != ""
      ensures r == IsManaged <==> r != NotManual && id in Ids(memory.managed)
      ensures r == Unlisted <==> r != NotManual && r != IsManaged && listed.None?
      ensures r == Changed <==> listed.Some? && id in listed.value && !SameReadback(listed.value[id], seen.raw)
      ensures asked <==> listed.Some? && id in listed.value && SameReadback(listed.value[id], seen.raw)
      ensures listed.Some? && id !in listed.value ==> r == Gone
      ensures r == Gone ==> id !in table
      ensures quiet && listed.Some? ==> listed.value == old(table)
      ensures quiet ==> table == old(table) || (asked && table == old(table) - {id})
    {
      hide Accounts, Loadable, Faithful;
      listed, asked := None, false;
      if id < 1 || !seen.IsManual() {
        return NotManual, None, false;
      }
      if id in set m | m in memory.managed :: m.id {
        return IsManaged, None, false;
      }
      assert forall i :: 0 <= i < |memory.managed| ==> memory.managed[i] in memory.managed;
      var rows, _ := List();
      listed := rows;
      if rows.None? {
        return Unlisted, listed, false;
      }
      if id !in rows.value {
        return Gone, listed, false;
      }
      if !SameReadback(rows.value[id], seen.raw) {
        return Changed, listed, false;
      }
      asked := true;
      Others();
      var effect, answer: bool := *, *;
      if !dead && effect {
        AccountsLess(memory.managed, disk.managed, table.Keys, created, strays, (table - {id}).Keys);
        table := table - {id};
      }
      r := if !dead && answer && id !in table then Gone else Unanswered;
    }

    /** What readback shows right after a reconciliation. */
    method ReconcileThenReadback(caps: Option<set<string>>) returns (ok: bool, report: Option<Report>)
      requires Valid() && !dead && quiet
      modifies this`memory, this`disk, this`table, this`used, this`manual, this`granted, this`created, this`strays, this`log, this`dead
      ensures ok && report.Some? ==> report.value.inSync && report.value.missingCount == 0
      ensures |table| > MAX_ROWS ==> report.None?
    {
      hide Settled, ReadsInSync, RowSync, WantSync, Idle, OthersKept, ServingKept, AllStanding, Accounts, Loadable, Faithful;
      ok := ReconcileRfw(caps);
      if ok {
        SettledReadsInSync(memory.rules, memory.managed, table);
      }
      report := Readback();
    }

    /** What a reconciliation sends right after readback has shown everything in sync. */
    method ReadbackThenReconcile(caps: Option<set<string>>) returns (report: Option<Report>, ok: bool)
      requires Valid() && !dead && quiet
      modifies this`memory, this`disk, this`table, this`used, this`manual, this`granted, this`created, this`strays, this`log, this`dead
      ensures report.Some? && report.value.inSync && old(LiveKeysUnique(memory.managed, table)) ==> log == old(log)
      ensures report.Some? && report.value.inSync && ok && log == old(log) ==> old(LiveKeysUnique(memory.managed, table))
    {
      hide ReadsInSync, RowSync, WantSync, Idle, LiveKeysUnique, Settled, OthersKept, ServingKept, AllStanding, Accounts,
           Loadable, Faithful;
      report := Readback();
      ok := false;
      if report.Some? && report.value.inSync {
        InSyncIsIdleIff(memory.rules, memory.managed, table);
      }
      if !dead {
        ok := ReconcileRfw(caps);
      }
    }
  }

  /** The rows in other states than those given. */
  ghost function Except(rows: map<int, Sync>, states: set<Sync>): set<int> {
    set id | id in rows && rows[id] !in states
  }

  lemma NoneExcept(states: set<Sync>)
    ensures Except(map[], states) == {}
  {
  }

  lemma ExceptNone(rows: map<int, Sync>, states: set<Sync>)
    ensures |Except(rows, states)| == 0 <==> forall id :: id in rows ==> rows[id] in states
  {
    if forall id :: id in rows ==> rows[id] in states {
      forall id ensures id !in Except(rows, states) {
      }
      assert Except(rows, states) == {};
    } else {
      var id :| id in rows && rows[id] !in states;
      assert id in Except(rows, states);
    }
  }

  lemma ExceptMore(rows: map<int, Sync>, id: int, sync: Sync, states: set<Sync>)
    requires id !in rows
    ensures |Except(rows[id := sync], states)| == |Except(rows, states)| + if sync in states then 0 else 1
  {
    if sync in states {
      assert Except(rows[id := sync], states) == Except(rows, states);
    } else {
      assert Except(rows[id := sync], states) == Except(rows, states) + {id};
    }
  }

  /** The counts of a report are those of its rows and of the expected rules. */
  ghost predicate Tallied(r: Report) {
    && r.managedCount == |Except(r.rows, {Manual})|
    && r.driftCount == |Except(r.rows, {Manual, InSync})| + multiset(r.expected)[Drifted]
    && r.missingCount == multiset(r.expected)[Missing]
    && (r.inSync <==> r.driftCount == 0 && r.missingCount == 0)
  }

  lemma WantStates(m: seq<Managed>, want: Rule, table: map<int, Raw>)
    ensures WantSync(m, want, table) in {Missing, InSync, Drifted}
  {
    hide RawMatches, Fingerprint;
  }

  /** A listed rule as readback shows it. */
  function Show(raw: Raw): Raw {
    raw.(direction := Lower(raw.direction), protocol := Lower(raw.protocol), action := Lower(raw.action),
         ipType := Lower(raw.ipType))
  }

  /** A listed rule is still the one shown. */
  predicate SameReadback(raw: Raw, seen: Raw) {
    var current := Show(raw);
    && current.priority == seen.priority && current.direction == seen.direction && current.protocol == seen.protocol
    && current.action == seen.action && current.enabled == seen.enabled && current.portStart == seen.portStart
    && current.portEnd == seen.portEnd && current.ipType == seen.ipType && current.ip == seen.ip
    && current.countries == seen.countries
  }

  /** A rule is the one shown if and only if it is shown alike; such rules differ in the case
      of letters only, and whatever policy recognises one recognises the other. */
  lemma SameReadbackIff(a: Raw, b: Raw, want: Rule)
    ensures SameReadback(a, Show(b)) <==> Show(a) == Show(b)
    ensures Show(a) == Show(b) ==> Meaning(a) == Meaning(b) && (RawMatches(a, want) <==> RawMatches(b, want))
    ensures Show(a) == Show(b) ==> a.ip == b.ip && a.countries == b.countries && EqIgnoreCase(a.action, b.action)
  {
    hide Lower, Trim, CountrySet, Collected;
  }

  // ---------- whole runs ----------

  datatype Op =
    | ApplyOp(revision: nat, rules: seq<Rule>, caps: Option<set<string>>)
    | ReconcileOp(caps: Option<set<string>>)
    | ReadbackOp
    | DeleteManualOp(id: int, seen: Shown)
    | RestartOp

  /** In every run, with other users editing the table, requests, answers and saves lost,
      and the process dying anywhere, reconciliation deletes only rules this agent was
      given by an answer to its own request: never one made by somebody else. The live
      rules of this agent that it does not remember are exactly its strays, and each of
      those was created by an operation that reported failure. */
  method Run(codec: Codec, rows: map<int, Raw>, ops: seq<Op>)
    returns (a: Agent, outcomes: seq<bool>, ghost made: seq<set<int>>)
    requires Faithful(codec)
    ensures fresh(a) && a.Valid()
    ensures forall i :: 0 <= i < |a.log| && a.log[i].Deleted? ==> a.log[i].id in a.granted && a.log[i].id !in a.manual
    ensures rows.Keys <= a.manual
    ensures forall id :: id in a.created && id in a.table ==> (id !in Ids(a.memory.managed) <==> id in a.strays)
    ensures |outcomes| == |made| == |ops| && Partition(made, a.created)
    ensures forall id :: id in a.strays ==> Unfinished(outcomes, made, id)
    ensures (forall i :: 0 <= i < |ops| ==> outcomes[i]) ==> a.strays == {}
  {
    hide Accounts, Loadable, Faithful, Unsaved, Settled, Partition, Unfinished, NormalOf, Acceptable, UniqueIds, UniqueKeys,
         RowSync, WantSync, ReadsInSync, Tallied, SameReadback, Ids;
    a := new Agent(codec, false, rows);
    outcomes, made := [], [];
    UnsavedSelf(a.memory);
    NothingMade();
    for i := 0 to |ops|
      invariant fresh(a) && a.Valid() && rows.Keys <= a.manual
      invariant |outcomes| == |made| == i && Partition(made, a.created)
      invariant forall id :: id in a.strays || id in Unsaved(a.memory, a.disk) ==> Unfinished(outcomes, made, id)
    {
      if a.dead {
        a.Restart();
      }
      ghost var created, open := a.created, a.strays + Unsaved(a.memory, a.disk);
      var ok := true;
      match ops[i] {
        case ApplyOp(revision, rules, caps) =>
          var r := a.Apply(revision, rules, caps);
          ok := r == Applied;
        case ReconcileOp(caps) => ok := a.Reconcile(caps);
        case ReadbackOp => var _ := a.Readback();
        case DeleteManualOp(id, seen) => var _, _, _ := a.DeleteManual(id, seen);
        case RestartOp => a.Restart();
      }
      MoreMade(outcomes, made, created, a.created, open, a.strays + Unsaved(a.memory, a.disk), ok);
      outcomes, made := outcomes + [ok], made + [a.created - created];
    }
    AccountsMean(a.memory.managed, a.disk.managed, a.table.Keys, a.created, a.strays);
    AllFinished(outcomes, made, a.strays);
  }

  /** The operations made disjoint sets of rules, which are all that were created. */
  ghost predicate Partition(made: seq<set<int>>, created: set<int>) {
    && (forall i, j :: 0 <= i < j < |made| ==> made[i] !! made[j])
    && (forall i, id :: 0 <= i < |made| && id in made[i] ==> id in created)
    && (forall id :: id in created ==> Made(made, id))
  }

  ghost predicate Made(made: seq<set<int>>, id: int) {
    exists i :: 0 <= i < |made| && id in made[i]
  }

  /** Made by an operation that reported failure. */
  ghost predicate Unfinished(outcomes: seq<bool>, made: seq<set<int>>, id: int) {
    exists i :: 0 <= i < |made| && i < |outcomes| && !outcomes[i] && id in made[i]
  }

  lemma NothingMade()
    ensures Partition([], {})
  {
  }

  lemma MoreMade(outcomes: seq<bool>, made: seq<set<int>>, created: set<int>, created': set<int>, open: set<int>,
                 open': set<int>, ok: bool)
    requires |outcomes| == |made| && Partition(made, created) && created <= created'
    requires forall id :: id in open ==> Unfinished(outcomes, made, id)
    requires open' <= open + (created' - created) && (ok ==> open' <= open)
    ensures Partition(made + [created' - created], created')
    ensures forall id :: id in open' ==> Unfinished(outcomes + [ok], made + [created' - created], id)
  {
    var outcomes', made' := outcomes + [ok], made + [created' - created];
    forall id | id in created' ensures Made(made', id) {
      if id in created {
        var i :| 0 <= i < |made| && id in made[i];
        assert made'[i] == made[i];
      } else {
        assert id in made'[|made|];
      }
    }
    forall i | 0 <= i < |made| ensures made[i] !! (created' - created) {
      forall id ensures id !in made[i] || id !in created' - created {
        assert id in made[i] ==> id in created;
      }
    }
    forall id | id in open' ensures Unfinished(outcomes', made', id) {
      if id in open {
        var i :| 0 <= i < |made| && !outcomes[i] && id in made[i];
        assert outcomes'[i] == outcomes[i] && made'[i] == made[i];
      } else {
        assert !outcomes'[|made|] && id in made'[|made|];
      }
    }
  }

  lemma AllFinished(outcomes: seq<bool>, made: seq<set<int>>, strays: set<int>)
    requires forall id :: id in strays ==> Unfinished(outcomes, made, id)
    ensures (forall i :: 0 <= i < |outcomes| ==> outcomes[i]) ==> strays == {}
  {
    if forall i :: 0 <= i < |outcomes| ==> outcomes[i] {
      forall id ensures id !in strays {
      }
    }
  }

  // ---------- what is remembered ----------

  /** No id known before comes back. */
  ghost predicate NoReturn(used: set<int>, before: map<int, Raw>, after: map<int, Raw>) {
    forall id :: id in used && id in after ==> id in before
  }

  /** Every remembered rule that is live was listed. */
  ghost predicate LiveListed(m: seq<Managed>, table: map<int, Raw>, actual: set<int>) {
    forall e :: e in m && e.id in table ==> e.id in actual
  }

  /** Strays are created rules that neither memory nor disk remember, among them all live
      ones that memory does not. */
  ghost predicate Accounts(m: seq<Managed>, d: seq<Managed>, live: set<int>, created: set<int>, strays: set<int>) {
    && strays <= created
    && (forall id :: id in strays ==> id !in Ids(m) && id !in Ids(d))
    && (forall id :: id in created && id in live ==> id in Ids(m) || id in strays)
  }

  /** Ids remembered in memory and not on disk. */
  ghost function Unsaved(m: State, d: State): set<int> {
    Ids(m.managed) - Ids(d.managed)
  }

  /** What an operation may add to the strays and to what is not on disk: rules it created,
      and nothing if it succeeds. */
  ghost predicate Ledger(ok: bool, strays: set<int>, strays': set<int>, created: set<int>, created': set<int>,
                         unsaved: set<int>, unsaved': set<int>)
  {
    && created <= created' && strays <= strays' <= strays + (created' - created)
    && unsaved' <= unsaved + (created' - created)
    && (ok ==> strays' == strays && unsaved' <= unsaved)
  }

  lemma LedgerStart(strays: set<int>, created: set<int>, unsaved: set<int>)
    ensures Ledger(true, strays, strays, created, created, unsaved, unsaved)
  {
  }

  lemma LedgerNext(ok: bool, strays: set<int>, strays0: set<int>, strays': set<int>, created: set<int>, created0: set<int>,
                   created': set<int>, unsaved: set<int>, unsaved0: set<int>, unsaved': set<int>)
    requires Ledger(true, strays, strays0, created, created0, unsaved, unsaved0)
    requires Ledger(ok, strays0, strays', created0, created', unsaved0, unsaved')
    ensures Ledger(ok, strays, strays', created, created', unsaved, unsaved')
  {
  }

  lemma UnsavedStart(strays: set<int>, created: set<int>, m: State, d: State)
    ensures Ledger(true, strays, strays, created, created, Unsaved(m, d), Unsaved(m, d))
  {
    hide Unsaved;
  }

  lemma UnsavedSelf(s: State)
    ensures Unsaved(s, s) == {}
  {
    hide Ids;
  }

  lemma UnsavedSame(m: State, m': State, d: State)
    requires m'.managed == m.managed
    ensures Unsaved(m', d) == Unsaved(m, d)
  {
  }

  lemma UnsavedAppend(m: State, d: State, e: Managed)
    ensures Unsaved(m.(managed := m.managed + [e]), d) <= Unsaved(m, d) + {e.id}
  {
    IdsAppend(m.managed, e);
    hide Ids;
  }

  lemma UnsavedCut(m: State, d: State, i: nat)
    requires i < |m.managed|
    ensures Unsaved(m.(managed := m.managed[..i] + m.managed[i + 1..]), d) <= Unsaved(m, d)
  {
    IdsCut(m.managed, i);
    hide Ids;
  }

  lemma AccountsMean(m: seq<Managed>, d: seq<Managed>, live: set<int>, created: set<int>, strays: set<int>)
    requires Accounts(m, d, live, created, strays)
    ensures forall id :: id in created && id in live ==> (id !in Ids(m) <==> id in strays)
  {
    hide Ids;
  }

  lemma AccountsLess(m: seq<Managed>, d: seq<Managed>, live: set<int>, created: set<int>, strays: set<int>, left: set<int>)
    requires Accounts(m, d, live, created, strays) && forall id :: id in created && id in left ==> id in live
    ensures Accounts(m, d, left, created, strays)
  {
    hide Ids;
  }

  lemma AccountsCreated(m: seq<Managed>, d: seq<Managed>, live: set<int>, created: set<int>, strays: set<int>, id: int)
    requires Accounts(m, d, live, created, strays) && id !in created
    requires (forall e :: e in m ==> e.id in created) && (forall e :: e in d ==> e.id in created)
    ensures Accounts(m, d, live + {id}, created + {id}, strays + {id})
  {
  }

  lemma AccountsRemembered(m: seq<Managed>, d: seq<Managed>, live: set<int>, created: set<int>, strays: set<int>, e: Managed)
    requires Accounts(m, d, live, created, strays)
    ensures Accounts(m + [e], d, live, created, strays - {e.id})
  {
    IdsAppend(m, e);
    hide Ids;
  }

  lemma IdsAppend(m: seq<Managed>, e: Managed)
    ensures Ids(m + [e]) == Ids(m) + {e.id}
  {
    assert forall i :: 0 <= i < |m| ==> (m + [e])[i] == m[i];
    assert (m + [e])[|m|] == e;
  }

  lemma AccountsCut(m: seq<Managed>, d: seq<Managed>, live: set<int>, created: set<int>, strays: set<int>, i: nat)
    requires Accounts(m, d, live, created, strays) && i < |m| && m[i].id !in live
    ensures Accounts(m[..i] + m[i + 1..], d, live, created, strays)
  {
    IdsCut(m, i);
    hide Ids;
  }

  lemma IdsCut(m: seq<Managed>, i: nat)
    requires i < |m|
    ensures Ids(m[..i] + m[i + 1..]) <= Ids(m) <= Ids(m[..i] + m[i + 1..]) + {m[i].id}
  {
    var c := m[..i] + m[i + 1..];
    forall j | 0 <= j < |c| ensures c[j].id in Ids(m) {
      assert c[j] in m[..i] || c[j] in m[i + 1..];
      InIds(m, c[j]);
    }
    forall j | 0 <= j < |m| && j != i ensures m[j].id in Ids(c) {
      assert m[j] in m[..i] || m[j] in m[i + 1..] by {
        if j < i { assert m[..i][j] == m[j]; } else { assert m[i + 1..][j - i - 1] == m[j]; }
      }
      InIds(c, m[j]);
    }
  }

  lemma AccountsReloaded(m: seq<Managed>, d: seq<Managed>, live: set<int>, created: set<int>, strays: set<int>)
    requires Accounts(m, d, live, created, strays) && Ids(m) <= created
    ensures Accounts(d, d, live, created, strays + (Ids(m) - Ids(d)))
  {
    hide Ids;
  }

  // ---------- what the table says ----------

  /** RFW supports every protocol asked for; one that does not tell has all but the newest. */
  ghost predicate Supported(rules: seq<Rule>, caps: Option<set<string>>) {
    forall k :: 0 <= k < |rules| ==> if caps.Some? then rules[k].protocol in caps.value else rules[k].protocol != "mtproto"
  }

  lemma NoneUnsupported(caps: Option<set<string>>)
    ensures Supported([], caps)
  {
  }

  /** Rule e is owned for `want`, live, and says what it asks for, field by field. */
  ghost predicate Stands(e: Managed, want: Rule, table: map<int, Raw>) {
    e.key == want.key && e.id in table && Meaning(table[e.id]) == Fingerprint(want)
  }

  ghost predicate StandsFor(m: seq<Managed>, want: Rule, table: map<int, Raw>) {
    exists i :: 0 <= i < |m| && Stands(m[i], want, table)
  }

  ghost predicate StandsForOne(e: Managed, rules: seq<Rule>, table: map<int, Raw>) {
    exists k :: 0 <= k < |rules| && Stands(e, rules[k], table)
  }

  /** The live rules of the agent say what the policy asks for: all of it, and nothing else. */
  ghost predicate Says(rules: seq<Rule>, m: seq<Managed>, table: map<int, Raw>) {
    && (forall k :: 0 <= k < |rules| ==> StandsFor(m, rules[k], table))
    && (forall i :: 0 <= i < |m| && m[i].id in table ==> StandsForOne(m[i], rules, table))
  }

  lemma ServesMeans(c: Codec, s: State, e: Managed, k: nat, table: map<int, Raw>)
    requires Faithful(c) && Loadable(c, s) && k < |s.rules| && Serves(e, s.rules[k], table)
    ensures Stands(e, s.rules[k], table)
  {
    assert NormalRule(c, s.rules[k]) == Some(s.rules[k]);
    hide NormalRule, Faithful, IsNormal, RawMatches, Meaning, Fingerprint;
    NormalIffFixed(c, s.rules[k]);
    RecognisedIff(c, table[e.id], s.rules[k]);
  }

  lemma InSyncSays(c: Codec, s: State, table: map<int, Raw>)
    requires Faithful(c) && Loadable(c, s) && UniqueKeys(s.rules) && UniqueIds(s.managed) && ReadsInSync(s.rules, s.managed, table)
    ensures Says(s.rules, s.managed, table)
  {
    hide Faithful, Loadable, RawMatches, Fingerprint, Meaning, WantSync, RowSync, Stands;
    var m := s.managed;
    forall k | 0 <= k < |s.rules| ensures StandsFor(m, s.rules[k], table) {
      FirstServes(m, s.rules[k], table);
      var i := FirstOwner(m, 0, s.rules[k].key).value;
      ServesMeans(c, s, m[i], k, table);
    }
    forall i | 0 <= i < |m| && m[i].id in table ensures StandsForOne(m[i], s.rules, table) {
      var k := LiveServes(s.rules, m, table, i);
      ServesMeans(c, s, m[i], k, table);
    }
  }

  lemma NothingSaid(table: map<int, Raw>)
    ensures Says([], [], table)
  {
  }

  lemma LiveServes(rules: seq<Rule>, m: seq<Managed>, table: map<int, Raw>, i: nat) returns (k: nat)
    requires UniqueKeys(rules) && UniqueIds(m) && ReadsInSync(rules, m, table) && i < |m| && m[i].id in table
    ensures k < |rules| && Serves(m[i], rules[k], table)
  {
    hide RawMatches, Fingerprint, WantSync, RowSync;
    var id := m[i].id;
    assert RowSync(rules, m, id, table[id]) in {Manual, InSync};
    RowSyncMeans(rules, m, id, table[id], i, 0);
    assert id in Ids(m);
    k :| 0 <= k < |rules| && rules[k].key == m[i].key;
    RowSyncMeans(rules, m, id, table[id], i, k);
  }

  // ---------- what is stored ----------

  ghost predicate SamePolicy(a: State, b: State) {
    a.revision == b.revision && a.rules == b.rules
  }

  ghost predicate AllSelected(m: seq<Managed>, selected: set<int>) {
    forall i :: 0 <= i < |m| ==> m[i].id in selected
  }

  ghost predicate SelectedTo(m: seq<Managed>, p: nat, selected: set<int>) {
    forall i :: 0 <= i < p <= |m| ==> m[i].id in selected
  }

  /** A reconciliation has nothing to create and nothing to forget, so nothing to save. */
  ghost predicate NothingDue(s: State, table: map<int, Raw>) {
    var kept := KeepAll(s.rules, 0, s.managed, table, {});
    (s.rules == [] && s.managed == []) || (kept.Some? && AllSelected(s.managed, kept.value))
  }

  predicate WellOwned(m: seq<Managed>) {
    forall i :: 0 <= i < |m| ==> m[i].key != "" && m[i].id >= 1
  }

  /** A state that loading accepts and leaves alone. */
  ghost predicate Loadable(c: Codec, s: State) {
    && (if s.revision > 0 then Acceptable(c, s.rules) && NormalOf(c, s.rules, s.rules) else s.rules == [])
    && WellOwned(s.managed)
  }

  lemma LoadsItself(c: Codec, s: State, r: Option<State>)
    requires Loadable(c, s)
    requires r.Some? <==> (s.revision > 0 ==> Acceptable(c, s.rules)) && WellOwned(s.managed)
    requires r.Some? ==> r.value.revision == s.revision && r.value.managed == s.managed
    requires r.Some? ==> if s.revision > 0 then NormalOf(c, s.rules, r.value.rules) else r.value.rules == s.rules
    ensures r == Some(s)
  {
    hide NormalRule, Acceptable;
    if s.revision > 0 {
      assert r.value.rules == s.rules;
    }
  }

  lemma LoadableNew(c: Codec, s: State, revision: nat, requested: seq<Rule>, rules: seq<Rule>)
    requires Faithful(c) && Loadable(c, s) && revision > 0 && Acceptable(c, requested) && NormalOf(c, requested, rules)
    ensures Loadable(c, State(revision, rules, s.managed))
  {
    hide Faithful, Acceptable, NormalOf, IsNormal, WellOwned;
    PolicyIsNormal(c, requested, rules);
  }

  lemma LoadableMore(c: Codec, s: State, m: Managed, want: Rule)
    requires Loadable(c, s) && want in s.rules && m.key == want.key && m.id >= 1
    ensures Loadable(c, s.(managed := s.managed + [m]))
  {
    var k :| 0 <= k < |s.rules| && s.rules[k] == want;
    assert ValidKey(s.rules[k].key);
    hide NormalRule, NormalOf;
  }

  lemma LoadableCut(c: Codec, s: State, i: nat)
    requires Loadable(c, s) && i < |s.managed|
    ensures Loadable(c, s.(managed := s.managed[..i] + s.managed[i + 1..]))
  {
    hide NormalOf, Acceptable;
  }

  // ---------- what a quiet success means ----------

  /** Rules the agent did not own stay as they were; new ones are its own. */
  ghost predicate OthersKept(before: map<int, Raw>, after: map<int, Raw>, owned: seq<Managed>, owned': seq<Managed>) {
    && (forall id :: id in before && id !in Ids(owned) ==> id in after && after[id] == before[id])
    && (forall id :: id in after && id !in before ==> id in Ids(owned'))
  }

  /** The rule that served a desired rule first is still remembered and untouched. */
  ghost predicate ServingKept(rules: seq<Rule>, owned: seq<Managed>, before: map<int, Raw>, owned': seq<Managed>, after: map<int, Raw>) {
    forall k :: 0 <= k < |rules| ==> StillServes(rules[k], owned, before, owned', after)
  }

  ghost predicate StillServes(want: Rule, owned: seq<Managed>, before: map<int, Raw>, owned': seq<Managed>, after: map<int, Raw>) {
    var f := FirstKept(owned, 0, want, before, {});
    f.Some? ==>
      var e := owned[f.value];
      e in owned' && e.id in after && after[e.id] == before[e.id]
  }

  /** Every desired rule has a live matching rule of this agent other than `id`. */
  ghost predicate AllStanding(rules: seq<Rule>, granted: set<int>, found: map<int, Raw>, id: int) {
    forall k :: 0 <= k < |rules| ==> Standing(rules[k], granted, found, id)
  }

  ghost predicate Standing(want: Rule, granted: set<int>, found: map<int, Raw>, id: int) {
    exists x :: x in found && x != id && x in granted && RawMatches(found[x], want)
  }

  lemma NothingToDo(table: map<int, Raw>)
    ensures Idle([], [], table) && Settled([], [], table)
    ensures OthersKept(table, table, [], []) && ServingKept([], [], table, [], table)
  {
  }

  lemma PostsNotDeletes(before: seq<Event>, log: seq<Event>)
    requires OnlyPosts(before, log)
    ensures before <= log && forall i :: |before| <= i < |log| ==> !log[i].Deleted?
  {
  }

  lemma LogAppends(before: seq<Event>, log1: seq<Event>, log: seq<Event>, selected: set<int>, quiet: bool, table: map<int, Raw>)
    requires OnlyPosts(before, log1) && Deletions(log1, log, selected, quiet, table)
    ensures before <= log
    ensures forall i :: |before| <= i < |log| && log[i].Deleted? ==>
              log[i].id !in selected && (quiet ==> Intact(selected, table, log[i].found))
    ensures log == before <==> log1 == before && log == log1
  {
  }

  lemma IdleMeaning(rules: seq<Rule>, m: seq<Managed>, table: map<int, Raw>, selected: set<int>)
    ensures var kept := KeepAll(rules, 0, m, table, {});
            Idle(rules, m, table) <==> kept.Some? && NoneLive(m, kept.value, table.Keys)
  {
    hide KeepAll;
  }

  lemma StandingFrom(rules: seq<Rule>, m: seq<Managed>, table: map<int, Raw>, ids: set<int>, granted: set<int>,
                     found: map<int, Raw>, id: int)
    requires Covers(rules, |rules|, m, table, ids) && Intact(ids, table, found) && id !in ids
    requires forall i :: 0 <= i < |m| ==> m[i].id in granted
    ensures AllStanding(rules, granted, found, id)
  {
    hide RawMatches, Fingerprint, Serving, OneEach;
    forall k | 0 <= k < |rules| ensures Standing(rules[k], granted, found, id) {
      assert Served(m, ids, rules[k], table);
      var e :| e in m && e.id in ids && Serves(e, rules[k], table);
      assert e.id in found;
    }
  }

  lemma {:induction false} KeptMembers(m: seq<Managed>, ids: set<int>, e: Managed)
    ensures e in KeepIds(m, ids) <==> e in m && e.id in ids
  {
    if m != [] {
      var n := |m| - 1;
      KeptMembers(m[..n], ids, e);
      assert m == m[..n] + [m[n]];
    }
  }

  lemma KeptIds(m: seq<Managed>, ids: set<int>)
    ensures forall id :: id in Ids(KeepIds(m, ids)) ==> id in ids && id in Ids(m)
    ensures forall e :: e in KeepIds(m, ids) ==> e in m && e.id in ids
  {
    hide KeepIds;
    var q := KeepIds(m, ids);
    forall e | e in q ensures e in m && e.id in ids {
      KeptMembers(m, ids, e);
    }
    forall id | id in Ids(q) ensures id in ids && id in Ids(m) {
      var i :| 0 <= i < |q| && q[i].id == id;
      KeptMembers(m, ids, q[i]);
      var j :| 0 <= j < |m| && m[j] == q[i];
      assert m[j].id == id;
    }
  }

  lemma KeptServes(rules: seq<Rule>, m: seq<Managed>, table: map<int, Raw>, e: Managed)
    requires UniqueIds(m) && Serving(m, e.id, rules, |rules|, table) && e in m
    ensures ServesOne(e, rules, table)
  {
    hide Serves, UniqueIds;
    var j :| 0 <= j < |rules| && Served(m, {e.id}, rules[j], table);
    var y :| y in m && y.id in {e.id} && Serves(y, rules[j], table);
    SameId(m, e, y);
  }

  lemma ServesThinned(e: Managed, want: Rule, table: map<int, Raw>, gone: set<int>)
    requires Serves(e, want, table) && e.id !in gone
    ensures Serves(e, want, table - gone)
  {
    hide RawMatches, Fingerprint;
  }

  lemma KeptIsServed(m: seq<Managed>, table: map<int, Raw>, ids: set<int>, want: Rule)
    requires Served(m, ids, want, table)
    ensures IsServed(want, KeepIds(m, ids), table - (Ids(m) - ids))
  {
    hide Serves, KeepIds, Ids;
    var q := KeepIds(m, ids);
    var e :| e in m && e.id in ids && Serves(e, want, table);
    KeptMembers(m, ids, e);
    ServesThinned(e, want, table, Ids(m) - ids);
    var i :| 0 <= i < |q| && q[i] == e;
  }

  lemma KeptServesOne(rules: seq<Rule>, m: seq<Managed>, table: map<int, Raw>, ids: set<int>, e: Managed)
    requires UniqueIds(m) && e in m && e.id in ids && Serving(m, e.id, rules, |rules|, table)
    ensures ServesOne(e, rules, table - (Ids(m) - ids))
  {
    hide Serves, Ids, Serving;
    KeptServes(rules, m, table, e);
    var k :| 0 <= k < |rules| && Serves(e, rules[k], table);
    ServesThinned(e, rules[k], table, Ids(m) - ids);
  }

  lemma SettledFrom(rules: seq<Rule>, m: seq<Managed>, table: map<int, Raw>, ids: set<int>)
    requires UniqueIds(m) && Covers(rules, |rules|, m, table, ids)
    requires UniqueIds(KeepIds(m, ids))
    ensures Settled(rules, KeepIds(m, ids), table - (Ids(m) - ids))
  {
    hide Serves, KeepIds, Ids, Serving, Served, IsServed, ServesOne;
    var q, t := KeepIds(m, ids), table - (Ids(m) - ids);
    forall k | 0 <= k < |rules| ensures IsServed(rules[k], q, t) {
      KeptIsServed(m, table, ids, rules[k]);
    }
    forall i | 0 <= i < |q| ensures ServesOne(q[i], rules, t) {
      KeptMembers(m, ids, q[i]);
      KeptServesOne(rules, m, table, ids, q[i]);
    }
    forall i, j | 0 <= i < j < |q| ensures q[i].key != q[j].key {
      KeptMembers(m, ids, q[i]);
      KeptMembers(m, ids, q[j]);
    }
  }

  lemma OthersFrom(before: map<int, Raw>, table: map<int, Raw>, owned: seq<Managed>, m: seq<Managed>, ids: set<int>)
    requires owned <= m && Extends(before, table, m[|owned|..])
    ensures OthersKept(before, table - (Ids(m) - ids), owned, KeepIds(m, ids))
  {
    hide KeepIds;
    var added := m[|owned|..];
    assert m == owned + added;
    var after := table - (Ids(m) - ids);
    forall id | id in before && id !in Ids(owned) ensures id in after && after[id] == before[id] {
      IdsOfBoth(owned, added, id);
    }
    forall id | id in after && id !in before ensures id in Ids(KeepIds(m, ids)) {
      var e :| e in added && e.id == id;
      InIds(m, e);
      KeptMembers(m, ids, e);
      InIds(KeepIds(m, ids), e);
    }
  }

  lemma IdsOfBoth(a: seq<Managed>, b: seq<Managed>, id: int)
    requires id !in Ids(a) && forall e :: e in b ==> e.id != id
    ensures id !in Ids(a + b)
  {
    var m := a + b;
    forall i | 0 <= i < |m| ensures m[i].id != id {
      if i < |a| {
        assert a[i].id in Ids(a);
      } else {
        assert m[i] in b;
      }
    }
  }

  lemma InIds(m: seq<Managed>, e: Managed)
    requires e in m
    ensures e.id in Ids(m)
  {
    var i :| 0 <= i < |m| && m[i] == e;
    assert m[i].id == e.id;
  }

  lemma ServingFrom(rules: seq<Rule>, owned: seq<Managed>, before: map<int, Raw>, m: seq<Managed>, table: map<int, Raw>, ids: set<int>)
    requires KeptFirst(rules, |rules|, owned, before, ids) && owned <= m
    requires Extends(before, table, m[|owned|..])
    ensures ServingKept(rules, owned, before, KeepIds(m, ids), table - (Ids(m) - ids))
  {
    hide KeepIds, FirstKept, RawMatches, Fingerprint, Ids;
    forall k | 0 <= k < |rules| ensures StillServes(rules[k], owned, before, KeepIds(m, ids), table - (Ids(m) - ids)) {
      var f := FirstKept(owned, 0, rules[k], before, {});
      assert FirstIn(owned, rules[k], before, ids);
      if f.Some? {
        assert m[f.value] == owned[f.value];
        KeptMembers(m, ids, owned[f.value]);
      }
    }
  }

  /** The remembered rules with one of these ids. */
  function KeepIds(m: seq<Managed>, ids: set<int>): seq<Managed> {
    if m == [] then []
    else KeepIds(m[..|m| - 1], ids) + if m[|m| - 1].id in ids then [m[|m| - 1]] else []
  }

  /** Every remembered rule is selected or was not listed. */
  ghost predicate NoneLive(m: seq<Managed>, selected: set<int>, actual: set<int>) {
    forall i :: 0 <= i < |m| ==> m[i].id in selected || m[i].id !in actual
  }

  /** The log grew by deletions of rules outside `selected`; in quiet, each at a time when
      the selected rules were all as in `table`. */
  ghost predicate Deletions(before: seq<Event>, log: seq<Event>, selected: set<int>, quiet: bool, table: map<int, Raw>) {
    && before <= log
    && forall i :: |before| <= i < |log| ==>
         log[i].Deleted? && log[i].id !in selected && (quiet ==> Intact(selected, table, log[i].found))
  }

  ghost predicate Intact(ids: set<int>, table: map<int, Raw>, found: map<int, Raw>) {
    forall id :: id in ids && id in table ==> id in found && found[id] == table[id]
  }

  /** The first `p` of `all` have been dealt with. */
  ghost predicate Pruned(all: seq<Managed>, p: nat, selected: set<int>, actual: set<int>, quiet: bool,
                         table: map<int, Raw>, table': map<int, Raw>, log: seq<Event>, log': seq<Event>)
  {
    && p <= |all|
    && Deletions(log, log', selected, quiet, table)
    && (log' == log <==> NoneLive(all[..p], selected, actual))
    && (quiet ==> actual == table.Keys && table' == table - (Ids(all[..p]) - selected))
  }

  lemma PruneStart(all: seq<Managed>, selected: set<int>, actual: set<int>, table: map<int, Raw>, log: seq<Event>, quiet: bool)
    requires quiet ==> actual == table.Keys
    ensures Window(all, 0, all, 0, selected) && SelectedTo(all, 0, selected)
    ensures Pruned(all, 0, selected, actual, quiet, table, table, log, log)
  {
  }

  /** The list while it is pruned: what is kept of the first `p`, then the rest. */
  ghost predicate Window(m: seq<Managed>, i: nat, all: seq<Managed>, p: nat, selected: set<int>) {
    p <= |all| && i == |KeepIds(all[..p], selected)| && m == KeepIds(all[..p], selected) + all[p..]
  }

  lemma WindowAt(m: seq<Managed>, i: nat, all: seq<Managed>, p: nat, selected: set<int>)
    requires Window(m, i, all, p, selected) && i < |m|
    ensures p < |all| && m[i] == all[p]
    ensures m[i].id in selected ==> Window(m, i + 1, all, p + 1, selected)
    ensures m[i].id !in selected ==> Window(m[..i] + m[i + 1..], i, all, p + 1, selected)
  {
    hide KeepIds;
    KeepStep(all, p, selected);
  }

  lemma SelectedNext(all: seq<Managed>, p: nat, selected: set<int>)
    requires p < |all|
    ensures SelectedTo(all, p, selected) && all[p].id in selected ==> SelectedTo(all, p + 1, selected)
    ensures all[p].id !in selected ==> !AllSelected(all, selected)
  {
  }

  lemma LiveCut(m: seq<Managed>, i: nat, used: set<int>, before: map<int, Raw>, after: map<int, Raw>, actual: set<int>)
    requires i < |m| && LiveListed(m, before, actual) && NoReturn(used, before, after)
    requires forall j :: 0 <= j < |m| ==> m[j].id in used
    ensures LiveListed(m[..i] + m[i + 1..], after, actual)
  {
  }

  lemma WindowEnd(m: seq<Managed>, i: nat, all: seq<Managed>, p: nat, selected: set<int>)
    requires Window(m, i, all, p, selected) && i >= |m|
    ensures p == |all| && m == KeepIds(all, selected)
    ensures SelectedTo(all, p, selected) ==> AllSelected(all, selected)
  {
    hide KeepIds;
    assert all[..|all|] == all;
  }

  lemma KeepStep(all: seq<Managed>, p: nat, selected: set<int>)
    requires p < |all|
    ensures KeepIds(all[..p + 1], selected)
         == KeepIds(all[..p], selected) + if all[p].id in selected then [all[p]] else []
  {
    assert all[..p + 1][..p] == all[..p];
  }

  lemma NotListed(m: seq<Managed>, i: nat, table: map<int, Raw>, actual: set<int>)
    requires i < |m| && LiveListed(m, table, actual)
    ensures m[i].id !in actual ==> m[i].id !in table
  {
  }

  lemma LiveStep(all: seq<Managed>, p: nat, selected: set<int>, actual: set<int>)
    requires p < |all|
    ensures NoneLive(all[..p + 1], selected, actual)
       <==> NoneLive(all[..p], selected, actual) && (all[p].id in selected || all[p].id !in actual)
    ensures NoneLive(all, selected, actual) ==> NoneLive(all[..p + 1], selected, actual)
  {
    var q := all[..p + 1];
    assert forall i :: 0 <= i < p ==> q[i] == all[..p][i];
    assert q[p] == all[p];
  }

  lemma IdsStep(all: seq<Managed>, p: nat)
    requires p < |all|
    ensures Ids(all[..p + 1]) == Ids(all[..p]) + {all[p].id}
  {
    var q := all[..p + 1];
    forall id | id in Ids(all[..p]) + {all[p].id} ensures id in Ids(q) {
      if id == all[p].id {
        assert q[p].id == id;
      } else {
        var i :| 0 <= i < p && all[..p][i].id == id;
        assert q[i].id == id;
      }
    }
  }

  /** What one round did to the log. */
  ghost predicate Round(id: int, live: bool, quiet: bool, found: map<int, Raw>, log: seq<Event>, log': seq<Event>) {
    if !live then log' == log
    else (exists t :: log' == log + [Deleted(id, t)]) && (quiet ==> log' == log + [Deleted(id, found)])
  }

  lemma PrunedStep(all: seq<Managed>, p: nat, selected: set<int>, actual: set<int>, quiet: bool,
                   table: map<int, Raw>, found: map<int, Raw>, table': map<int, Raw>,
                   log: seq<Event>, log0: seq<Event>, log': seq<Event>)
    requires p < |all| && Pruned(all, p, selected, actual, quiet, table, found, log, log0)
    requires all[p].id in selected ==> log' == log0 && table' == found
    requires all[p].id !in selected ==> Round(all[p].id, all[p].id in actual, quiet, found, log0, log')
    requires all[p].id !in selected && quiet ==> table' == found - {all[p].id}
    ensures Pruned(all, p + 1, selected, actual, quiet, table, table', log, log')
  {
    hide Deletions, NoneLive, Ids;
    LiveStep(all, p, selected, actual);
    IdsStep(all, p);
    RoundDeletions(all[p].id, all[p].id !in selected && all[p].id in actual, quiet, selected, table, found,
                   Ids(all[..p]) - selected, log, log0, log');
  }

  lemma RoundDeletions(id: int, live: bool, quiet: bool, selected: set<int>, table: map<int, Raw>, found: map<int, Raw>,
                       gone: set<int>, log: seq<Event>, log0: seq<Event>, log': seq<Event>)
    requires Deletions(log, log0, selected, quiet, table) && Round(id, live, quiet, found, log0, log')
    requires live ==> id !in selected
    requires quiet ==> found == table - gone && gone !! selected
    ensures Deletions(log, log', selected, quiet, table)
    ensures live ==> log' != log
  {
  }

  lemma PrunedStop(all: seq<Managed>, p: nat, selected: set<int>, actual: set<int>, quiet: bool,
                   table: map<int, Raw>, found: map<int, Raw>, log: seq<Event>, log0: seq<Event>, log': seq<Event>)
    requires p < |all| && Pruned(all, p, selected, actual, quiet, table, found, log, log0)
    requires all[p].id !in selected && Round(all[p].id, all[p].id in actual, quiet, found, log0, log')
    ensures Deletions(log, log', selected, quiet, table)
    ensures NoneLive(all, selected, actual) ==> log' == log
  {
    hide Deletions, NoneLive, Ids;
    LiveStep(all, p, selected, actual);
    RoundDeletions(all[p].id, all[p].id in actual, quiet, selected, table, found, Ids(all[..p]) - selected, log, log0, log');
  }

  lemma PrunedAll(all: seq<Managed>, selected: set<int>, actual: set<int>, quiet: bool,
                  table: map<int, Raw>, table': map<int, Raw>, log: seq<Event>, log': seq<Event>)
    requires Pruned(all, |all|, selected, actual, quiet, table, table', log, log')
    ensures Deletions(log, log', selected, quiet, table)
    ensures log' == log <==> NoneLive(all, selected, actual)
    ensures quiet ==> table' == table - (Ids(all) - selected)
  {
    assert all[..|all|] == all;
  }

  lemma CutOwned(m: seq<Managed>, i: nat, granted: set<int>)
    requires i < |m| && forall j :: 0 <= j < |m| ==> m[j].id in granted
    ensures var c := m[..i] + m[i + 1..]; forall j :: 0 <= j < |c| ==> c[j].id in granted
  {
  }

  lemma UniqueCut(m: seq<Managed>, i: nat)
    requires UniqueIds(m) && i < |m|
    ensures UniqueIds(m[..i] + m[i + 1..])
    ensures forall e :: e in m[..i] + m[i + 1..] ==> e in m
  {
  }

  // ---------- what has been established so far ----------

  /** Some remembered rule of `ids` serves `want`. */
  ghost predicate Served(m: seq<Managed>, ids: set<int>, want: Rule, table: map<int, Raw>) {
    exists e :: e in m && e.id in ids && Serves(e, want, table)
  }

  /** Rule `id` is remembered and serves one of the first `k` rules. */
  ghost predicate Serving(m: seq<Managed>, id: int, rules: seq<Rule>, k: nat, table: map<int, Raw>) {
    exists j :: 0 <= j < k <= |rules| && Served(m, {id}, rules[j], table)
  }

  /** The first `k` rules are served by `ids`, and each of those serves one of them. */
  ghost predicate Covers(rules: seq<Rule>, k: nat, m: seq<Managed>, table: map<int, Raw>, ids: set<int>) {
    && k <= |rules|
    && (forall j :: 0 <= j < k ==> Served(m, ids, rules[j], table))
    && (forall id :: id in ids ==> Serving(m, id, rules, k, table))
    && OneEach(m, ids)
  }

  /** No two of `ids` are remembered for the same key. */
  ghost predicate OneEach(m: seq<Managed>, ids: set<int>) {
    forall e, f :: e in m && f in m && e.id in ids && f.id in ids && e.key == f.key ==> e.id == f.id
  }

  ghost predicate HasRuleId(m: seq<Managed>, id: int) {
    exists e :: e in m && e.id == id
  }

  /** The table gained exactly the rules of `added`. */
  ghost predicate Extends(before: map<int, Raw>, after: map<int, Raw>, added: seq<Managed>) {
    && (forall id :: id in before ==> id in after && after[id] == before[id])
    && (forall id :: id in after && id !in before ==> HasRuleId(added, id))
    && (forall e :: e in added ==> e.id !in before && e.id in after)
  }

  /** Rules created in this pass: under new ids, for keys already dealt with. */
  ghost predicate Fresh(added: seq<Managed>, used: set<int>, rules: seq<Rule>, k: nat) {
    forall e :: e in added ==> e.id !in used && exists j :: 0 <= j < k <= |rules| && rules[j].key == e.key
  }

  /** The agent's picture of the table has its ids, and its rows where they are old. */
  ghost predicate SameRows(used: set<int>, rows: map<int, Raw>, table: map<int, Raw>) {
    rows.Keys == table.Keys && forall id :: id in rows && id in used ==> rows[id] == table[id]
  }

  /** For each of the first `k` rules that was served at the start, the rule that served
      it first is selected. */
  ghost predicate KeptFirst(rules: seq<Rule>, k: nat, m: seq<Managed>, listed: map<int, Raw>, ids: set<int>) {
    k <= |rules| && forall j :: 0 <= j < k ==> FirstIn(m, rules[j], listed, ids)
  }

  ghost predicate FirstIn(m: seq<Managed>, want: Rule, listed: map<int, Raw>, ids: set<int>) {
    var f := FirstKept(m, 0, want, listed, {});
    f.Some? ==> m[f.value].id in ids
  }

  lemma KeptFirstMore(rules: seq<Rule>, k: nat, m: seq<Managed>, listed: map<int, Raw>, ids: set<int>, ids': set<int>)
    requires KeptFirst(rules, k, m, listed, ids) && ids <= ids'
    ensures KeptFirst(rules, k, m, listed, ids')
  {
    hide FirstKept;
    forall j | 0 <= j < k ensures FirstIn(m, rules[j], listed, ids') {
      assert FirstIn(m, rules[j], listed, ids);
    }
  }

  /** What a remembered rule serves now it served when the table was listed. */
  lemma ServedBefore(before: seq<Managed>, added: seq<Managed>, i: nat, want: Rule, listed: map<int, Raw>, used: set<int>,
                     rules: seq<Rule>, k: nat, rows: map<int, Raw>, table: map<int, Raw>)
    requires i < |before| && Fresh(added, used, rules, k) && (forall e :: e in before ==> e.id in used)
    requires SameRows(used, rows, table) && Extends(listed, table, added)
    ensures Serves(before[i], want, rows) <==> Serves(before[i], want, listed)
  {
    hide RawMatches, Fingerprint;
    var id := before[i].id;
    assert before[i] in before;
    assert id in table && id !in listed ==> HasRuleId(added, id);
  }

  lemma FirstAgain(rules: seq<Rule>, k: nat, before: seq<Managed>, added: seq<Managed>, listed: map<int, Raw>, used: set<int>,
                   rows: map<int, Raw>, table: map<int, Raw>, ids: set<int>)
    requires UniqueKeys(rules) && UniqueIds(before + added) && k < |rules| && Fresh(added, used, rules, k)
    requires Covers(rules, k, before + added, table, ids) && forall e :: e in before ==> e.id in used
    requires SameRows(used, rows, table) && Extends(listed, table, added)
    ensures var f := FirstKept(before, 0, rules[k], listed, {});
            f.Some? ==> FirstKept(before + added, 0, rules[k], rows, ids) == f
  {
    hide RawMatches, Fingerprint, FirstKept, Extends, Fresh, SameRows, Serving;
    var m := before + added;
    var f := FirstKept(before, 0, rules[k], listed, {});
    if f.Some? {
      forall i | 0 <= i <= f.value ensures m[i] == before[i] && (Serves(m[i], rules[k], rows) <==> i == f.value) {
        ServedBefore(before, added, i, rules[k], listed, used, rules, k, rows, table);
      }
      if m[f.value].id in ids {
        ServerKey(rules, k, m, table, m, m[f.value]);
      }
    }
  }

  lemma KeptFirstNext(rules: seq<Rule>, k: nat, before: seq<Managed>, added: seq<Managed>, listed: map<int, Raw>, used: set<int>,
                      rows: map<int, Raw>, table: map<int, Raw>, ids: set<int>)
    requires UniqueKeys(rules) && UniqueIds(before + added) && k < |rules| && Fresh(added, used, rules, k)
    requires Covers(rules, k, before + added, table, ids) && forall e :: e in before ==> e.id in used
    requires SameRows(used, rows, table) && Extends(listed, table, added)
    requires KeptFirst(rules, k, before, listed, ids)
    ensures var kept := FirstKept(before + added, 0, rules[k], rows, ids);
            if kept.Some? then KeptFirst(rules, k + 1, before, listed, ids + {(before + added)[kept.value].id})
            else KeptFirst(rules, k + 1, before, listed, ids)
  {
    hide FirstKept, Covers, Extends, Fresh, SameRows;
    FirstAgain(rules, k, before, added, listed, used, rows, table, ids);
    var kept := FirstKept(before + added, 0, rules[k], rows, ids);
    if kept.Some? {
      KeptFirstMore(rules, k, before, listed, ids, ids + {(before + added)[kept.value].id});
    }
  }

  ghost predicate OnlyPosts(before: seq<Event>, log: seq<Event>) {
    before <= log && forall i :: |before| <= i < |log| ==> log[i].Posted?
  }

  lemma PostsNothing(log: seq<Event>)
    ensures OnlyPosts(log, log)
  {
  }

  lemma PostsMore(before: seq<Event>, log: seq<Event>, log': seq<Event>, want: Rule)
    requires OnlyPosts(before, log) && log' == log + [Posted(want)]
    ensures OnlyPosts(before, log') && log' != before
  {
  }

  /** What holds in quiet once the first `k` rules are dealt with. */
  ghost predicate Progress(rules: seq<Rule>, k: nat, before: seq<Managed>, added: seq<Managed>, listed: map<int, Raw>,
                           used: set<int>, rows: map<int, Raw>, table: map<int, Raw>, ids: set<int>) {
    && Covers(rules, k, before + added, table, ids)
    && SameRows(used, rows, table)
    && Extends(listed, table, added)
    && KeptFirst(rules, k, before, listed, ids)
  }

  lemma NoProgress(rules: seq<Rule>, m: seq<Managed>, table: map<int, Raw>, used: set<int>, listed: map<int, Raw>)
    ensures Fresh([], used, rules, 0) && m + [] == m
    ensures listed == table ==> Progress(rules, 0, m, [], listed, used, listed, table, {})
  {
    hide Covers, KeptFirst, Fresh;
    NoneCovered(rules, m + [], table, used, listed);
    NoneCovered(rules, m, table, used, listed);
  }

  lemma ProgressKeep(rules: seq<Rule>, k: nat, before: seq<Managed>, added: seq<Managed>, listed: map<int, Raw>,
                     used: set<int>, rows: map<int, Raw>, table: map<int, Raw>, ids: set<int>)
    requires UniqueKeys(rules) && UniqueIds(before + added) && k < |rules| && Fresh(added, used, rules, k)
    requires forall i :: 0 <= i < |before| ==> before[i].id in used
    requires Progress(rules, k, before, added, listed, used, rows, table, ids)
    requires FirstKept(before + added, 0, rules[k], rows, ids).Some?
    ensures Progress(rules, k + 1, before, added, listed, used, rows, table,
                     ids + {(before + added)[FirstKept(before + added, 0, rules[k], rows, ids).value].id})
  {
    hide Covers, KeptFirst, Fresh, Extends, SameRows, FirstKept;
    var m := (before + added)[FirstKept(before + added, 0, rules[k], rows, ids).value];
    KeptFirstNext(rules, k, before, added, listed, used, rows, table, ids);
    KeepCovers(rules, k, before, added, m, used, rows, table, ids);
  }

  lemma ProgressPost(rules: seq<Rule>, k: nat, before: seq<Managed>, added: seq<Managed>, listed: map<int, Raw>,
                     used: set<int>, rows: map<int, Raw>, table: map<int, Raw>, table': map<int, Raw>, ids: set<int>,
                     m: Managed, raw: Raw, now: set<int>)
    requires UniqueKeys(rules) && UniqueIds(before + added) && UniqueIds(before + added + [m]) && k < |rules|
    requires Fresh(added, used, rules, k) && table.Keys <= now && used <= now && m.id !in now
    requires forall i :: 0 <= i < |before| ==> before[i].id in used
    requires Progress(rules, k, before, added, listed, used, rows, table, ids)
    requires FirstKept(before + added, 0, rules[k], rows, ids).None?
    requires m.id in table' && table' == table[m.id := table'[m.id]] && RawMatches(table'[m.id], rules[k])
    requires m.key == rules[k].key && m.fp == Fingerprint(rules[k])
    ensures Progress(rules, k + 1, before, added + [m], listed, used, rows[m.id := raw], table', ids + {m.id})
  {
    hide Covers, KeptFirst, Fresh, Extends, FirstKept, RawMatches, Fingerprint;
    KeptFirstNext(rules, k, before, added, listed, used, rows, table, ids);
    KeptFirstMore(rules, k + 1, before, listed, ids, ids + {m.id});
    PostCovers(rules, k, before + added, m, table, table', ids);
    PostExtends(listed, table, table', added, m, now);
    assert before + added + [m] == before + (added + [m]);
  }

  lemma ProgressMade(rules: seq<Rule>, before: seq<Managed>, added: seq<Managed>, listed: map<int, Raw>,
                     used: set<int>, rows: map<int, Raw>, table: map<int, Raw>, ids: set<int>)
    requires Progress(rules, |rules|, before, added, listed, used, rows, table, ids)
    ensures Covers(rules, |rules|, before + added, table, ids) && rows.Keys == table.Keys
    ensures Extends(listed, table, added) && KeptFirst(rules, |rules|, before, listed, ids)
  {
  }

  lemma NoneCovered(rules: seq<Rule>, m: seq<Managed>, table: map<int, Raw>, used: set<int>, listed: map<int, Raw>)
    ensures Covers(rules, 0, m, table, {}) && Extends(table, table, []) && Fresh([], used, rules, 0)
    ensures KeptFirst(rules, 0, m, listed, {})
  {
  }

  lemma KeepAllStep(rules: seq<Rule>, k: nat, m: seq<Managed>, actual: map<int, Raw>, selected: set<int>)
    requires k < |rules|
    ensures var f := FirstKept(m, 0, rules[k], actual, selected);
            KeepAll(rules, k, m, actual, selected)
            == if f.None? then None else KeepAll(rules, k + 1, m, actual, selected + {m[f.value].id})
  {
    hide FirstKept;
  }

  lemma KeepAllEnd(rules: seq<Rule>, m: seq<Managed>, actual: map<int, Raw>, selected: set<int>)
    ensures KeepAll(rules, |rules|, m, actual, selected) == Some(selected)
  {
  }

  lemma UniqueAppend(m: seq<Managed>, e: Managed, used: set<int>)
    requires UniqueIds(m) && e.id !in used && forall i :: 0 <= i < |m| ==> m[i].id in used
    ensures UniqueIds(m + [e])
  {
  }

  lemma FreshNext(added: seq<Managed>, used: set<int>, rules: seq<Rule>, k: nat)
    requires Fresh(added, used, rules, k) && k < |rules|
    ensures Fresh(added, used, rules, k + 1)
  {
    forall e | e in added ensures exists j :: 0 <= j < k + 1 <= |rules| && rules[j].key == e.key {
      var j :| 0 <= j < k <= |rules| && rules[j].key == e.key;
    }
  }

  lemma FreshPost(added: seq<Managed>, used: set<int>, rules: seq<Rule>, k: nat, m: Managed)
    requires Fresh(added, used, rules, k) && k < |rules| && m.id !in used && m.key == rules[k].key
    ensures Fresh(added + [m], used, rules, k + 1)
  {
    FreshNext(added, used, rules, k);
    forall e | e in added + [m] ensures e.id !in used && exists j :: 0 <= j < k + 1 <= |rules| && rules[j].key == e.key {
      if e !in added {
        assert e == m && rules[k].key == e.key;
      }
    }
  }

  lemma ServedMore(m: seq<Managed>, ids: set<int>, want: Rule, table: map<int, Raw>,
                   m': seq<Managed>, ids': set<int>, table': map<int, Raw>)
    requires Served(m, ids, want, table)
    requires (forall e :: e in m && e.id in ids ==> e in m') && ids <= ids'
    requires forall id :: id in ids && id in table ==> id in table' && table'[id] == table[id]
    ensures Served(m', ids', want, table')
  {
    hide RawMatches, Fingerprint;
    var e :| e in m && e.id in ids && Serves(e, want, table);
    assert e in m' && e.id in ids' && Serves(e, want, table');
  }

  lemma ServingMore(rules: seq<Rule>, k: nat, m: seq<Managed>, table: map<int, Raw>, id: int,
                    m': seq<Managed>, k': nat, table': map<int, Raw>)
    requires Serving(m, id, rules, k, table) && k <= k' <= |rules|
    requires forall x :: x in m && x.id == id ==> x in m'
    requires id in table ==> id in table' && table'[id] == table[id]
    ensures Serving(m', id, rules, k', table')
  {
    hide Served;
    var j :| 0 <= j < k <= |rules| && Served(m, {id}, rules[j], table);
    ServedMore(m, {id}, rules[j], table, m', {id}, table');
  }

  lemma ServedSelf(m: seq<Managed>, ids: set<int>, e: Managed, want: Rule, table: map<int, Raw>)
    requires e in m && e.id in ids && Serves(e, want, table)
    ensures Served(m, ids, want, table)
  {
    hide Serves;
  }

  /** Covering survives a growing list and table, and a rule more. */
  lemma CoversMore(rules: seq<Rule>, k: nat, m: seq<Managed>, table: map<int, Raw>, ids: set<int>,
                   m': seq<Managed>, table': map<int, Raw>, e: Managed)
    requires UniqueKeys(rules) && UniqueIds(m')
    requires Covers(rules, k, m, table, ids) && k < |rules|
    requires (forall x :: x in m ==> x in m') && e in m' && Serves(e, rules[k], table')
    requires forall id :: id in table ==> id in table' && table'[id] == table[id]
    ensures Covers(rules, k + 1, m', table', ids + {e.id})
  {
    hide Serves, Served, OneEach;
    var ids' := ids + {e.id};
    OneEachMore(rules, k, m, table, ids, m', table', e);
    forall j | 0 <= j < k + 1 ensures Served(m', ids', rules[j], table') {
      if j < k {
        ServedMore(m, ids, rules[j], table, m', ids', table');
      } else {
        ServedSelf(m', ids', e, rules[k], table');
      }
    }
    hide Serving;
    forall id | id in ids' ensures Serving(m', id, rules, k + 1, table') {
      if id in ids {
        ServingMore(rules, k, m, table, id, m', k + 1, table');
      } else {
        ServingSelf(rules, k, m', e, table');
      }
    }
  }

  lemma ServerKey(rules: seq<Rule>, k: nat, m: seq<Managed>, table: map<int, Raw>, m': seq<Managed>, x: Managed)
    requires Serving(m, x.id, rules, k, table) && UniqueIds(m') && x in m' && forall y :: y in m ==> y in m'
    ensures x in m && exists j :: 0 <= j < k <= |rules| && rules[j].key == x.key
  {
    hide RawMatches, Fingerprint;
    var j :| 0 <= j < k <= |rules| && Served(m, {x.id}, rules[j], table);
    var y :| y in m && y.id in {x.id} && Serves(y, rules[j], table);
    SameId(m', x, y);
    assert rules[j].key == x.key;
  }

  lemma SameId(m: seq<Managed>, x: Managed, y: Managed)
    requires UniqueIds(m) && x in m && y in m && x.id == y.id
    ensures x == y
  {
    var i :| 0 <= i < |m| && m[i] == x;
    var j :| 0 <= j < |m| && m[j] == y;
    assert i == j;
  }

  lemma OneEachMore(rules: seq<Rule>, k: nat, m: seq<Managed>, table: map<int, Raw>, ids: set<int>,
                    m': seq<Managed>, table': map<int, Raw>, e: Managed)
    requires UniqueKeys(rules) && UniqueIds(m')
    requires Covers(rules, k, m, table, ids) && k < |rules|
    requires (forall x :: x in m ==> x in m') && e in m' && Serves(e, rules[k], table')
    ensures OneEach(m', ids + {e.id})
  {
    hide Serving, RawMatches, Fingerprint;
    forall x | x in m' && x.id in ids ensures x in m && x.key != e.key {
      ServerKey(rules, k, m, table, m', x);
    }
    forall x, y | x in m' && y in m' && x.id in ids + {e.id} && y.id in ids + {e.id} && x.key == y.key
      ensures x.id == y.id
    {
      if x.id == e.id {
        SameId(m', x, e);
      }
      if y.id == e.id {
        SameId(m', y, e);
      }
    }
  }

  lemma ServingSelf(rules: seq<Rule>, k: nat, m: seq<Managed>, e: Managed, table: map<int, Raw>)
    requires k < |rules| && e in m && Serves(e, rules[k], table)
    ensures Serving(m, e.id, rules, k + 1, table)
  {
    hide Serves, Served;
    ServedSelf(m, {e.id}, e, rules[k], table);
  }

  lemma KeepCovers(rules: seq<Rule>, k: nat, before: seq<Managed>, added: seq<Managed>, m: Managed, used: set<int>,
                   rows: map<int, Raw>, table: map<int, Raw>, ids: set<int>)
    requires UniqueKeys(rules) && UniqueIds(before + added) && k < |rules| && Fresh(added, used, rules, k)
    requires Covers(rules, k, before + added, table, ids)
    requires SameRows(used, rows, table) && m in before + added && Serves(m, rules[k], rows)
    requires forall e :: e in before ==> e.id in used
    ensures Covers(rules, k + 1, before + added, table, ids + {m.id})
  {
    hide RawMatches, Fingerprint, Covers;
    assert m in before;
    CoversMore(rules, k, before + added, table, ids, before + added, table, m);
  }

  lemma PostCovers(rules: seq<Rule>, k: nat, m: seq<Managed>, e: Managed,
                   table: map<int, Raw>, table': map<int, Raw>, ids: set<int>)
    requires Covers(rules, k, m, table, ids) && k < |rules| && UniqueKeys(rules) && UniqueIds(m + [e])
    requires e.id !in table && e.id in table' && table' == table[e.id := table'[e.id]]
    requires e.key == rules[k].key && e.fp == Fingerprint(rules[k]) && RawMatches(table'[e.id], rules[k])
    ensures Covers(rules, k + 1, m + [e], table', ids + {e.id})
  {
    hide RawMatches, Fingerprint, Covers;
    CoversMore(rules, k, m, table, ids, m + [e], table', e);
  }

  lemma PostExtends(before: map<int, Raw>, table: map<int, Raw>, table': map<int, Raw>, added: seq<Managed>, e: Managed,
                    used: set<int>)
    requires Extends(before, table, added) && table.Keys <= used && e.id !in used
    requires e.id in table' && table' == table[e.id := table'[e.id]]
    ensures Extends(before, table', added + [e])
  {
    forall id | id in table' && id !in before ensures HasRuleId(added + [e], id) {
      if id == e.id {
        assert e in added + [e];
      } else {
        var x :| x in added && x.id == id;
        assert x in added + [e];
      }
    }
  }
}
