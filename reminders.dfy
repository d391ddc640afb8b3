/** The reminder dictionary: author email to the list of that author's
    stale branches (add_branch_slack_reminders and its inline twin in
    triage_branches). */
module Reminders {
  import opened Branches

  /** Appends `v` to the list under `key`, first creating an empty list when
      the key is absent. Every other key keeps its list. */
  function Append<V>(m: map<string, seq<V>>, key: string, v: V): (m': map<string, seq<V>>)
    ensures m'.Keys == m.Keys + {key}
    ensures key in m ==> m'[key] == m[key] + [v]
    ensures key !in m ==> m'[key] == [v]
    ensures forall k :: k in m && k != key ==> m'[k] == m[k]
  {
    var m1 := if key in m then m else m[key := []];
    m1[key := m1[key] + [v]]
  }

  /** add_branch_slack_reminders: files the branch's name under its last
      commit author's email. The source mutates the dictionary it is given;
      here the updated dictionary is returned. */
  function AddBranchSlackReminders(b: Branch, slackReminder: map<string, seq<string>>): (r: map<string, seq<string>>)
    ensures b.email in r
    ensures r.Keys == slackReminder.Keys + {b.email}
    ensures r[b.email] == (if b.email in slackReminder then slackReminder[b.email] else []) + [b.name]
    ensures forall e :: e in slackReminder && e != b.email ==> r[e] == slackReminder[e]
  {
    Append(slackReminder, b.email, b.name)
  }
}
