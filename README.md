# Stale-branch triage, modelled in Dafny

`purge_branches.py` is meant to tidy a GitHub repository's branches. It
walks all branches. It is meant to delete the ones whose last commit is older
than a deletion threshold. For the ones older than a reminder threshold, it
is meant to send each author a Slack reminder. As written, it sends the
reminder to one hard-coded address only (`gita@coda.io`). Its delete request
goes to a URL with missing slashes. This project models the part of the
script that makes decisions, which does not depend on either defect:

- the triage loop of `triage_branches`. It sorts every fetched branch into a
  delete list, a reminder dictionary keyed by author email, or neither;
- the dictionary helper `add_branch_slack_reminders`;
- the per-author strings built in `send_slack_message`: the bulk
  `git push origin --delete …` command and the compare-view links.

Modules, one per component:

- `Branches` (`branches.dfy`): the branch record and the policy. It holds the
  per-branch rule `Classify`, checked in the source's order: keep-alive
  prefix, then an open first pull request, then the deletion cutoff, then the
  reminder cutoff.
- `Reminders` (`reminders.dfy`): appending to the email → list dictionary.
- `Triage` (`triage.dfy`): the specification of the two outputs.
  `DeleteList` and `Group` are order-preserving filters. `ReminderGroups` is
  the fold the loop performs. `TriageBranches` is the loop itself, proved
  equal to them. The lemmas state the retention rules on the outputs.
- `Notify` (`notify.dfy`): `' '.join` / `str.split`, the delete command and
  the compare links, each with an inverse.
- `Seqs` (`seqs.dfy`): filtering and the subsequence relation.

Times are integers in microseconds, the resolution of Python's `datetime`.
A policy holds one instant `now` and the two thresholds in whole days. The
cutoff for `d` days is `now - d * 86_400_000_000`, the model of
`datetime.today() - timedelta(days=d)`. Both comparisons are strict, as in
the source.

Two points about how the code does things:

- Two places in `purge_branches.py` do the grouping.
  `add_branch_slack_reminders` files the branch *name*. The loop in
  `triage_branches` does not call it. It repeats the same steps inline and
  files the whole branch record. Both are modelled: the helper as
  `AddBranchSlackReminders` on names, and the loop on `Branch` values. Both
  are built on the one `Append`.
- The rule is often phrased as "age greater than N days". The code compares
  the commit time against `now - N days`, which is the same strict
  inequality. The model uses the code's form.

## Model

| member | source | states |
|---|---|---|
| `Branches.Classify` | src/purge_branches.py:94-104 | A keep-alive or open-first-PR branch is Ignored whatever its age. Delete iff not exempt and strictly older than the deletion cutoff. Remind iff not exempt and between the deletion cutoff (inclusive) and the reminder cutoff (exclusive). The list-level consequences are the `Triage` lemmas below. |
| `Triage.ReminderGroups` | src/purge_branches.py:104-108 | No key holds an empty list. Every listed branch is an input branch classified Remind, filed under its own email. `ReminderGroupsAreGroups` gives the converse and the order. |
| `Triage.TriageBranches` | src/purge_branches.py:88-108 | The loop returns exactly `DeleteList` and `ReminderGroups` of its input. |
| `Triage.DeleteList` | src/purge_branches.py:102-103 | A branch is in the delete list iff it is an input branch classified Delete. |
| `Triage.Group` | src/purge_branches.py:104-108 | A branch is in the group of `email` iff it is an input branch classified Remind whose author email is `email`. |
| `Triage.ReminderGroupsAreGroups` | src/purge_branches.py:104-108 | An email is a key of the reminder dictionary iff its group is non-empty. Each key's list is exactly that group, in fetch order. |
| `Triage.Placement` | src/purge_branches.py:93-108 | Every output element comes from the input. Delete-list membership iff classified Delete. Membership in the group of `e` iff classified Remind with author `e`. |
| `Triage.KeepAliveNeverListed` | src/purge_branches.py:94-96 | A branch named with the `keep-alive-` prefix is in neither output, whatever its age or pull request. |
| `Triage.OpenPullRequestNeverListed` | src/purge_branches.py:97-100 | A branch whose first pull request is `OPEN` is in neither output, whatever its age. |
| `Triage.StaleBranchDeleted` | src/purge_branches.py:102-103 | A non-exempt input branch older than the deletion cutoff is in the delete list and in no reminder group. The delete check takes precedence. |
| `Triage.AgingBranchReminded` | src/purge_branches.py:104-108 | A non-exempt input branch between the cutoffs is in the group of its own email (the key is created; an empty email is an ordinary key). It is in no other group and not in the delete list. |
| `Triage.FreshBranchNeverListed` | src/purge_branches.py:102-104 | A branch committed at or after both cutoffs appears in no output. |
| `Triage.AtMostOneBucket` | src/purge_branches.py:93-108 | No branch is both deleted and reminded, and none is in two reminder groups. |
| `Triage.OutputsKeepFetchOrder` | src/purge_branches.py:93-108 | The delete list and every reminder group are subsequences of the input, in input order. |
| `Triage.NoRemindersWithoutWindow` | src/purge_branches.py:102-104 | If the reminder threshold in days is not below the deletion threshold, the reminder dictionary is empty. |
| `Triage.SnocDelete` | src/purge_branches.py:102-103 | One more branch is appended to the delete list exactly when it is classified Delete. |
| `Triage.SnocRemind` | src/purge_branches.py:104-108 | One more branch is filed under its own email exactly when it is classified Remind. Otherwise the reminder dictionary is unchanged. |
| `Triage.KeptOffDeleteList` | src/purge_branches.py:93-103 | Further branches none of which is classified Delete leave the delete list as it was. |
| `Triage.KeptOffReminders` | src/purge_branches.py:93-108 | Further branches none of which is classified Remind leave the reminder dictionary as it was. |
| `Triage.WorkedExample` | src/purge_branches.py:88-108 | With thresholds 150/90 days: a 200-day branch is deleted. A keep-alive branch, an open-PR branch and a 10-day branch are ignored. A 95-day branch is reminded under its author's email. |
| `Branches.AgingOnlyAdvances` | src/purge_branches.py:101-104 | A later `now` never moves a branch back from Delete or Remind towards Ignored. |
| `Branches.ReminderWindow` | src/purge_branches.py:102-104 | When the reminder threshold is below the deletion threshold, every non-exempt branch is classified Remind at the instant `daysDelete` days after its commit. |
| `Branches.NoReminderWithoutWindow` | src/purge_branches.py:102-104 | When the deletion threshold is at most the reminder threshold, no branch is classified Remind. |
| `Reminders.Append` | src/purge_branches.py:105-108 | The key is present afterwards. Its list is the old list, or empty, with the value appended. Every other key keeps its list. |
| `Reminders.AddBranchSlackReminders` | src/purge_branches.py:17-21 | The branch's email is a key afterwards. Its list is the old list, or empty, with the branch name appended. All other keys are unchanged. |
| `Notify.Join` | src/purge_branches.py:135 | For a non-empty list: the result has the parts' characters plus one separator per neighbouring pair, and starts with the first part. `SplitJoin` gives the round trip. |
| `Notify.DeleteCommand` | src/purge_branches.py:135 | The command starts with `git push origin --delete `. For an empty group it is exactly that prefix. Otherwise its length is the prefix plus the names plus one space between each pair. `DeleteCommandNamesGroup` gives the names back. |
| `Notify.CompareLink` | src/purge_branches.py:134 | The link `https://github.com/<repo>/compare/main...<name>\n` decodes back to `<name>`. `LinkedBranchOnlyOfCompareLink` shows that nothing else decodes to it. |
| `Notify.SplitJoin` | src/purge_branches.py:135 | Splitting `sep.join(parts)` on `sep` gives back `parts` when no part holds `sep`. |
| `Notify.DeleteCommandNamesGroup` | src/purge_branches.py:135 | Splitting the text after the prefix on single spaces gives one argument per branch of the group. The i-th argument is the i-th branch's name. |
| `Notify.CompareLinks` | src/purge_branches.py:133-134 | One link per branch, in group order. Each link decodes to its branch's name. |
| `Notify.LinkedBranchOnlyOfCompareLink` | src/purge_branches.py:133-134 | Only the compare link of `<name>` decodes to `<name>`. Together with `CompareLink`'s contract this is an exact round trip. |

## Left out

- The network: the GraphQL fetch and its recursive pagination (`grab_all_branches`), the REST deletes (`delete_branches`), the Slack user lookup (`get_slack_user_id`) and the message post. These are foreign I/O. Also not modelled: `delete_branches` builds its URL as `GITHUB_API_URL + "repos/" + repo + "git/refs/" + name` (src/purge_branches.py:27), with no slash after the host or the repository. The resulting connection error is not an `HTTPError`, so the `except HTTPError` at line 35 does not catch it and no branch is deleted.
- `parse_args` and `main`: argparse, environment variables, logging and `sys.exit`. Two defects there are not modelled. The thresholds arrive as untyped strings. The loop reads `days_slack`, but the flag is `--days-notify`. The model takes two integer thresholds.
- The mutable default accumulator of `grab_all_branches`. It belongs to the pagination.
- Parsing `committedDate` with `strptime`, and reading the clock. The commit time is an already-parsed integer and `now` is a parameter. The source calls `today()` afresh for each comparison, and it compares a naive local time with a UTC timestamp. The model uses one `now` for the whole run and one time base.
- Branches.Cutoff: datetime's range is not modelled. In the source, `today() - timedelta(days=d)` raises OverflowError when the cutoff falls before year 1 (roughly d > 739,000). `timedelta` itself refuses |d| > 999,999,999. The model's integer cutoff is unbounded, so it classifies such branches normally.
- Triage.TriageBranches: the calls to `delete_branches` and `send_slack_message` after the loop are not modelled. They only trigger I/O. The method returns both outputs instead.
- Triage.TriageBranches: the order of the reminder dictionary's keys is not modelled. Python dicts keep first-insertion order and `send_slack_message` visits owners in that order. A Dafny `map` has no order. The order of branches *within* each group is modelled.
- Reminders.AddBranchSlackReminders: the source mutates the dictionary it is given. The model returns the updated dictionary, so aliasing of the caller's dictionary is not captured.
- Notify.DeleteCommandNamesGroup: the round trip is stated only for non-empty groups whose names contain no space. Git ref names cannot contain spaces, and the loop never creates an empty group. For an empty list, `' '.join` yields `""` and the command keeps its trailing space; `DeleteCommand` computes that too.
- The rest of the message text. Not modelled: the hard-coded recipient filter (only one address is ever messaged), the prose, the swapped `%s` arguments, the inverted singular/plural, and the concatenation of the links into the message. These are presentation details.
- Branch names are not assumed unique. Membership statements are about branch values, so two equal records behave as one.
