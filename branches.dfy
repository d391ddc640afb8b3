/** The branch record as the repository query returns it, the retention
    policy, and the per-branch triage rule of src/purge_branches.py. */
module Branches {

  datatype Option<T> = None | Some(value: T)

  /** One ref under refs/heads/. Only the first associated pull request is
      fetched, so its state is all that is kept of the pull requests.
      `committed` is the last commit's time in microseconds since the epoch
      (the resolution of Python's datetime); `email` is its author's email,
      possibly empty. */
  datatype Branch = Branch(
    name: string,
    firstPrState: Option<string>,
    committed: int,
    email: string)

  /** The evaluation instant and the two thresholds, in days. */
  datatype Policy = Policy(now: int, daysDelete: int, daysSlack: int)

  /** Where the classifier puts one branch. */
  datatype Decision = Ignored | Delete | Remind

  const KeepAlivePrefix: string := "keep-alive-"
  const OpenState: string := "OPEN"
  const MicrosPerDay: int := 86_400_000_000

  /** Python's str.startswith. */
  predicate StartsWith(s: string, prefix: string)
  {
    |prefix| <= |s| && s[..|prefix|] == prefix
  }

  /** Exempt by naming convention. */
  predicate KeptAlive(b: Branch)
  {
    StartsWith(b.name, KeepAlivePrefix)
  }

  /** The first associated pull request exists and is open; an empty list of
      pull requests is not open. */
  predicate HasOpenPullRequest(b: Branch)
  {
    b.firstPrState.Some? && b.firstPrState.value == OpenState
  }

  /** `now - timedelta(days=days)`. */
  function Cutoff(now: int, days: int): int
  {
    now - days * MicrosPerDay
  }

  function DeleteCutoff(p: Policy): int
  {
    Cutoff(p.now, p.daysDelete)
  }

  function SlackCutoff(p: Policy): int
  {
    Cutoff(p.now, p.daysSlack)
  }

  /** The retention rule, checked in the order the source checks it. An
      exemption wins over any age; the deletion cutoff wins over the
      reminder cutoff. */
  function Classify(b: Branch, p: Policy): (d: Decision)
    ensures KeptAlive(b) || HasOpenPullRequest(b) ==> d == Ignored
    ensures d == Delete <==> !KeptAlive(b) && !HasOpenPullRequest(b) && b.committed < DeleteCutoff(p)
    ensures d == Remind <==>
              !KeptAlive(b) && !HasOpenPullRequest(b) && DeleteCutoff(p) <= b.committed < SlackCutoff(p)
  {
    if KeptAlive(b) then Ignored
    else if HasOpenPullRequest(b) then Ignored
    else if b.committed < DeleteCutoff(p) then Delete
    else if b.committed < SlackCutoff(p) then Remind
    else Ignored
  }

  /** Ignored < Remind < Delete: how far a branch has gone towards deletion. */
  function Stage(d: Decision): nat
  {
    match d
    case Ignored => 0
    case Remind => 1
    case Delete => 2
  }

  /** With nothing else changed, a later `now` never moves a branch back
      towards being kept. */
  lemma AgingOnlyAdvances(b: Branch, p: Policy, later: int)
    requires p.now <= later
    ensures Stage(Classify(b, p)) <= Stage(Classify(b, p.(now := later)))
    ensures Classify(b, p) == Delete ==> Classify(b, p.(now := later)) == Delete
  {
  }

  /** When the reminder threshold is strictly below the deletion threshold,
      every branch that is not exempt is in the reminder bucket at some
      instant: when exactly `daysDelete` days have passed since its commit. */
  lemma ReminderWindow(b: Branch, p: Policy)
    requires p.daysSlack < p.daysDelete
    requires !KeptAlive(b) && !HasOpenPullRequest(b)
    ensures Classify(b, p.(now := b.committed + p.daysDelete * MicrosPerDay)) == Remind
  {
    var q := p.(now := b.committed + p.daysDelete * MicrosPerDay);
    assert DeleteCutoff(q) == b.committed;
    assert SlackCutoff(q) == b.committed + (p.daysDelete - p.daysSlack) * MicrosPerDay;
  }

  /** If the reminder threshold is not below the deletion threshold, the
      deletion check always wins and no branch is ever reminded. */
  lemma NoReminderWithoutWindow(b: Branch, p: Policy)
    requires p.daysDelete <= p.daysSlack
    ensures Classify(b, p) != Remind
  {
    assert SlackCutoff(p) <= DeleteCutoff(p);
  }
}
