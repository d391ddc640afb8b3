/** triage_branches: one pass over the fetched branches that fills a delete
    list and a reminder dictionary keyed by author email. The functions
    below are its specification; TriageBranches is the loop itself. */
module Triage {
  import opened Seqs
  import opened Branches
  import opened Reminders

  /** The branches to delete, in fetch order. */
  function DeleteList(bs: seq<Branch>, p: Policy): (r: seq<Branch>)
    ensures forall b :: b in r <==> b in bs && Classify(b, p) == Delete
  {
    Filter(bs, (b: Branch) => Classify(b, p) == Delete)
  }

  /** The branches to remind `email` of, in fetch order: an independent
      description of one reminder group. */
  function Group(bs: seq<Branch>, p: Policy, email: string): (r: seq<Branch>)
    ensures forall b :: b in r <==> b in bs && Classify(b, p) == Remind && b.email == email
  {
    Filter(bs, (b: Branch) => Classify(b, p) == Remind && b.email == email)
  }

  /** The reminder dictionary as the loop builds it: each reminded branch is
      appended under its author's email. A key is only ever created
      together with its first branch, so no list is empty, and every listed
      branch was reminded under its own email. */
  function ReminderGroups(bs: seq<Branch>, p: Policy): (r: map<string, seq<Branch>>)
    ensures forall e :: e in r ==> r[e] != []
    ensures forall e, b :: e in r && b in r[e] ==> b in bs && Classify(b, p) == Remind && b.email == e
  {
    if bs == [] then map[]
    else
      var m := ReminderGroups(DropLast(bs), p);
      var b := Last(bs);
      assert bs == DropLast(bs) + [b];
      if Classify(b, p) == Remind then Append(m, b.email, b) else m
  }

  /** The loop of triage_branches, without the delete and notify calls that
      follow it. */
  method TriageBranches(branches: seq<Branch>, p: Policy)
    returns (toDelete: seq<Branch>, slackReminder: map<string, seq<Branch>>)
    ensures toDelete == DeleteList(branches, p)
    ensures slackReminder == ReminderGroups(branches, p)
  {
    toDelete := [];
    slackReminder := map[];
    for i := 0 to |branches|
      invariant toDelete == DeleteList(branches[..i], p)
      invariant slackReminder == ReminderGroups(branches[..i], p)
    {
      var branch := branches[i];
      assert branches[..i + 1] == branches[..i] + [branch];
      SnocDelete(branches[..i], p, branch);
      SnocRemind(branches[..i], p, branch);
      if StartsWith(branch.name, KeepAlivePrefix) {
        continue;
      }
      if branch.firstPrState.Some? {
        if branch.firstPrState.value == OpenState {
          continue;
        }
      }
      var lastBranchCommit := branch.committed;
      if lastBranchCommit < p.now - p.daysDelete * MicrosPerDay {
        toDelete := toDelete + [branch];
      } else if lastBranchCommit < p.now - p.daysSlack * MicrosPerDay {
        var email := branch.email;
        if email !in slackReminder {
          slackReminder := slackReminder[email := []];
        }
        slackReminder := slackReminder[email := slackReminder[email] + [branch]];
      }
    }
    assert branches[..|branches|] == branches;
  }

  /** Each entry of the reminder dictionary is exactly the group of its
      email, and an email is a key exactly when its group is non-empty. */
  lemma {:induction false} ReminderGroupsAreGroups(bs: seq<Branch>, p: Policy)
    ensures forall e :: e in ReminderGroups(bs, p) <==> Group(bs, p, e) != []
    ensures forall e :: e in ReminderGroups(bs, p) ==> ReminderGroups(bs, p)[e] == Group(bs, p, e)
  {
    if bs != [] {
      var init, b := DropLast(bs), Last(bs);
      ReminderGroupsAreGroups(init, p);
      forall e
        ensures Group(bs, p, e)
             == Group(init, p, e) + (if Classify(b, p) == Remind && b.email == e then [b] else [])
      {
      }
    }
  }

  /** Where any branch value ends up: in the delete list exactly when it is
      an input branch classified Delete, and in the group of `e` exactly
      when it is an input branch classified Remind whose author is `e`. */
  lemma {:induction false} Placement(bs: seq<Branch>, p: Policy, b: Branch)
    ensures b in DeleteList(bs, p) <==> b in bs && Classify(b, p) == Delete
    ensures forall e :: e in ReminderGroups(bs, p) && b in ReminderGroups(bs, p)[e]
                    <==> b in bs && Classify(b, p) == Remind && b.email == e
  {
    ReminderGroupsAreGroups(bs, p);
  }

  /** A keep-alive branch is neither deleted nor reminded, whatever its age
      or pull request. */
  lemma {:induction false} KeepAliveNeverListed(bs: seq<Branch>, p: Policy, b: Branch)
    requires StartsWith(b.name, KeepAlivePrefix)
    ensures b !in DeleteList(bs, p)
    ensures forall e :: e in ReminderGroups(bs, p) ==> b !in ReminderGroups(bs, p)[e]
  {
    Placement(bs, p, b);
  }

  /** A branch whose first pull request is open is neither deleted nor
      reminded, whatever its age. */
  lemma {:induction false} OpenPullRequestNeverListed(bs: seq<Branch>, p: Policy, b: Branch)
    requires b.firstPrState == Some(OpenState)
    ensures b !in DeleteList(bs, p)
    ensures forall e :: e in ReminderGroups(bs, p) ==> b !in ReminderGroups(bs, p)[e]
  {
    Placement(bs, p, b);
  }

  /** An exempt-free input branch older than the deletion cutoff is deleted
      and never reminded, even though it is also past the reminder cutoff. */
  lemma {:induction false} StaleBranchDeleted(bs: seq<Branch>, p: Policy, b: Branch)
    requires b in bs
    requires !StartsWith(b.name, KeepAlivePrefix) && b.firstPrState != Some(OpenState)
    requires b.committed < p.now - p.daysDelete * MicrosPerDay
    ensures b in DeleteList(bs, p)
    ensures forall e :: e in ReminderGroups(bs, p) ==> b !in ReminderGroups(bs, p)[e]
  {
    Placement(bs, p, b);
  }

  /** An exempt-free input branch between the two cutoffs is in the group of
      its own author email (an empty email included) and nowhere else. */
  lemma {:induction false} AgingBranchReminded(bs: seq<Branch>, p: Policy, b: Branch)
    requires b in bs
    requires !StartsWith(b.name, KeepAlivePrefix) && b.firstPrState != Some(OpenState)
    requires p.now - p.daysDelete * MicrosPerDay <= b.committed < p.now - p.daysSlack * MicrosPerDay
    ensures b.email in ReminderGroups(bs, p) && b in ReminderGroups(bs, p)[b.email]
    ensures forall e :: e in ReminderGroups(bs, p) && e != b.email ==> b !in ReminderGroups(bs, p)[e]
    ensures b !in DeleteList(bs, p)
  {
    Placement(bs, p, b);
  }

  /** A branch committed at or after both cutoffs appears nowhere. */
  lemma {:induction false} FreshBranchNeverListed(bs: seq<Branch>, p: Policy, b: Branch)
    requires b.committed >= p.now - p.daysDelete * MicrosPerDay
    requires b.committed >= p.now - p.daysSlack * MicrosPerDay
    ensures b !in DeleteList(bs, p)
    ensures forall e :: e in ReminderGroups(bs, p) ==> b !in ReminderGroups(bs, p)[e]
  {
    Placement(bs, p, b);
  }

  /** No branch is in two buckets: never both deleted and reminded, and
      never in two reminder groups. */
  lemma {:induction false} AtMostOneBucket(bs: seq<Branch>, p: Policy, b: Branch)
    ensures b in DeleteList(bs, p) ==>
              forall e :: e in ReminderGroups(bs, p) ==> b !in ReminderGroups(bs, p)[e]
    ensures forall e1, e2 ::
              (e1 in ReminderGroups(bs, p) && b in ReminderGroups(bs, p)[e1] &&
               e2 in ReminderGroups(bs, p) && b in ReminderGroups(bs, p)[e2]) ==> e1 == e2
  {
    Placement(bs, p, b);
  }

  /** The delete list and every reminder group list their branches in fetch
      order. */
  lemma {:induction false} OutputsKeepFetchOrder(bs: seq<Branch>, p: Policy)
    ensures Subsequence(DeleteList(bs, p), bs)
    ensures forall e :: e in ReminderGroups(bs, p) ==> Subsequence(ReminderGroups(bs, p)[e], bs)
  {
    FilterIsSubsequence(bs, (b: Branch) => Classify(b, p) == Delete);
    ReminderGroupsAreGroups(bs, p);
    forall e | e in ReminderGroups(bs, p)
      ensures Subsequence(ReminderGroups(bs, p)[e], bs)
    {
      FilterIsSubsequence(bs, (b: Branch) => Classify(b, p) == Remind && b.email == e);
    }
  }

  /** When the reminder threshold is not below the deletion threshold the
      reminder dictionary stays empty. */
  lemma {:induction false} NoRemindersWithoutWindow(bs: seq<Branch>, p: Policy)
    requires p.daysDelete <= p.daysSlack
    ensures ReminderGroups(bs, p) == map[]
  {
    if bs != [] {
      NoRemindersWithoutWindow(DropLast(bs), p);
      NoReminderWithoutWindow(Last(bs), p);
    }
  }

  /** The worked example of the retention policy: 150 days to deletion, 90
      to a reminder, ages counted back from `now`. */
  lemma {:induction false} WorkedExample(now: int)
    ensures
      var p := Policy(now, 150, 90);
      var a := Branch("feature-x", None, now - 200 * MicrosPerDay, "a@x.com");
      var b := Branch("keep-alive-feature-y", None, now - 300 * MicrosPerDay, "a@x.com");
      var c := Branch("feature-z", Some("OPEN"), now - 100 * MicrosPerDay, "a@x.com");
      var d := Branch("feature-w", None, now - 95 * MicrosPerDay, "a@x.com");
      var e := Branch("feature-v", None, now - 10 * MicrosPerDay, "a@x.com");
      DeleteList([a, b, c, d, e], p) == [a] && ReminderGroups([a, b, c, d, e], p) == map["a@x.com" := [d]]
  {
    var p := Policy(now, 150, 90);
    var a := Branch("feature-x", None, now - 200 * MicrosPerDay, "a@x.com");
    var b := Branch("keep-alive-feature-y", None, now - 300 * MicrosPerDay, "a@x.com");
    var c := Branch("feature-z", Some("OPEN"), now - 100 * MicrosPerDay, "a@x.com");
    var d := Branch("feature-w", None, now - 95 * MicrosPerDay, "a@x.com");
    var e := Branch("feature-v", None, now - 10 * MicrosPerDay, "a@x.com");
    assert b.name[..|KeepAlivePrefix|] == KeepAlivePrefix;
    assert Classify(a, p) == Delete && Classify(b, p) == Ignored && Classify(c, p) == Ignored;
    assert Classify(d, p) == Remind && Classify(e, p) == Ignored;
    OneDeletedOneReminded(p, a, b, c, d, e);
  }

  /** Five branches of which only the first is deleted and only the fourth
      reminded. */
  lemma OneDeletedOneReminded(p: Policy, a: Branch, b: Branch, c: Branch, d: Branch, e: Branch)
    requires Classify(a, p) == Delete && Classify(d, p) == Remind
    requires Classify(b, p) == Ignored && Classify(c, p) == Ignored && Classify(e, p) == Ignored
    ensures DeleteList([a, b, c, d, e], p) == [a]
    ensures ReminderGroups([a, b, c, d, e], p) == map[d.email := [d]]
  {
    OnlyFirstDeleted(p, a, b, c, d, e);
    OnlyFourthReminded(p, a, b, c, d, e);
  }

  lemma OnlyFirstDeleted(p: Policy, a: Branch, b: Branch, c: Branch, d: Branch, e: Branch)
    requires Classify(a, p) == Delete
    requires Classify(b, p) != Delete && Classify(c, p) != Delete
    requires Classify(d, p) != Delete && Classify(e, p) != Delete
    ensures DeleteList([a, b, c, d, e], p) == [a]
  {
    SnocDelete([], p, a);
    assert [] + [a] == [a];
    KeptOffDeleteList([a], p, [b, c, d, e]);
    assert [a] + [b, c, d, e] == [a, b, c, d, e];
  }

  /** Appending branches none of which is classified Delete leaves the
      delete list as it was. */
  lemma {:induction false} KeptOffDeleteList(bs: seq<Branch>, p: Policy, rest: seq<Branch>)
    requires forall i :: 0 <= i < |rest| ==> Classify(rest[i], p) != Delete
    ensures DeleteList(bs + rest, p) == DeleteList(bs, p)
  {
    if rest == [] {
      assert bs + rest == bs;
    } else {
      KeptOffDeleteList(bs, p, DropLast(rest));
      SnocDelete(bs + DropLast(rest), p, Last(rest));
      assert bs + DropLast(rest) + [Last(rest)] == bs + rest;
    }
  }

  lemma OnlyFourthReminded(p: Policy, a: Branch, b: Branch, c: Branch, d: Branch, e: Branch)
    requires Classify(d, p) == Remind
    requires Classify(a, p) != Remind && Classify(b, p) != Remind
    requires Classify(c, p) != Remind && Classify(e, p) != Remind
    ensures ReminderGroups([a, b, c, d, e], p) == map[d.email := [d]]
  {
    KeptOffReminders([], p, [a, b, c]);
    assert [] + [a, b, c] == [a, b, c];
    assert ReminderGroups([a, b, c], p) == map[];
    SnocRemind([a, b, c], p, d);
    assert [a, b, c] + [d] == [a, b, c, d];
    KeptOffReminders([a, b, c, d], p, [e]);
    assert [a, b, c, d] + [e] == [a, b, c, d, e];
  }

  /** Appending branches none of which is classified Remind leaves the
      reminder dictionary as it was. */
  lemma {:induction false} KeptOffReminders(bs: seq<Branch>, p: Policy, rest: seq<Branch>)
    requires forall i :: 0 <= i < |rest| ==> Classify(rest[i], p) != Remind
    ensures ReminderGroups(bs + rest, p) == ReminderGroups(bs, p)
  {
    if rest == [] {
      assert bs + rest == bs;
    } else {
      KeptOffReminders(bs, p, DropLast(rest));
      SnocRemind(bs + DropLast(rest), p, Last(rest));
      assert bs + DropLast(rest) + [Last(rest)] == bs + rest;
    }
  }

  /** One more fetched branch is appended to the delete list exactly when
      it is classified Delete. */
  lemma SnocDelete(bs: seq<Branch>, p: Policy, b: Branch)
    ensures DeleteList(bs + [b], p)
         == DeleteList(bs, p) + (if Classify(b, p) == Delete then [b] else [])
  {
    assert DropLast(bs + [b]) == bs;
  }

  /** One more fetched branch is filed under its email exactly when it is
      classified Remind; otherwise the dictionary is unchanged. */
  lemma SnocRemind(bs: seq<Branch>, p: Policy, b: Branch)
    ensures ReminderGroups(bs + [b], p)
         == if Classify(b, p) == Remind then Append(ReminderGroups(bs, p), b.email, b)
            else ReminderGroups(bs, p)
  {
    assert DropLast(bs + [b]) == bs;
  }
}
