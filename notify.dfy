/** The per-owner strings of send_slack_message: the one-line bulk delete
    command and one compare-view link per reminded branch. */
module Notify {
  import opened Branches

  const DeleteCommandPrefix: string := "git push origin --delete "
  const GithubUrl: string := "https://github.com/"
  const CompareInfix: string := "/compare/main..."

  /** The total number of characters in `parts`. */
  function TotalLength(parts: seq<string>): nat
  {
    if parts == [] then 0 else |parts[0]| + TotalLength(parts[1..])
  }

  /** Python's `sep.join(parts)` for a one-character separator: the parts'
      characters plus one separator between each neighbouring pair, and the
      first part leading. */
  function Join(parts: seq<string>, sep: char): (r: string)
    ensures |parts| >= 1 ==> |r| == TotalLength(parts) + |parts| - 1
    ensures |parts| >= 1 ==> r[..|parts[0]|] == parts[0]
  {
    if |parts| == 0 then ""
    else if |parts| == 1 then parts[0]
    else parts[0] + [sep] + Join(parts[1..], sep)
  }

  /** Python's `s.split(sep)` for a one-character separator: every
      separator cuts, so the result has one more piece than `s` has
      separators. */
  function Split(s: string, sep: char): (r: seq<string>)
    ensures |r| >= 1
  {
    if s == [] then [""]
    else
      var rest := Split(s[1..], sep);
      if s[0] == sep then [""] + rest
      else [[s[0]] + rest[0]] + rest[1..]
  }

  lemma {:induction false} SplitWithoutSeparator(s: string, sep: char)
    requires sep !in s
    ensures Split(s, sep) == [s]
  {
    if s != [] {
      SplitWithoutSeparator(s[1..], sep);
      assert [s[0]] + s[1..] == s;
    }
  }

  lemma {:induction false} SplitAtSeparator(a: string, b: string, sep: char)
    requires sep !in a
    ensures Split(a + [sep] + b, sep) == [a] + Split(b, sep)
  {
    if a == [] {
      assert a + [sep] + b == [sep] + b;
      assert ([sep] + b)[1..] == b;
    } else {
      SplitAtSeparator(a[1..], b, sep);
      assert (a + [sep] + b)[1..] == a[1..] + [sep] + b;
      assert [a[0]] + a[1..] == a;
    }
  }

  /** Splitting a join gives back the parts, provided none of them holds
      the separator. */
  lemma {:induction false} SplitJoin(parts: seq<string>, sep: char)
    requires |parts| >= 1
    requires forall i :: 0 <= i < |parts| ==> sep !in parts[i]
    ensures Split(Join(parts, sep), sep) == parts
  {
    if |parts| == 1 {
      SplitWithoutSeparator(parts[0], sep);
    } else {
      SplitJoin(parts[1..], sep);
      SplitAtSeparator(parts[0], Join(parts[1..], sep), sep);
      assert [parts[0]] + parts[1..] == parts;
    }
  }

  function Names(group: seq<Branch>): seq<string>
  {
    seq(|group|, i requires 0 <= i < |group| => group[i].name)
  }

  /** `"git push origin --delete " + ' '.join(names)` for one owner's group:
      the fixed prefix, then the names (nothing more for an empty group). */
  function DeleteCommand(group: seq<Branch>): (r: string)
    ensures |DeleteCommandPrefix| <= |r| && r[..|DeleteCommandPrefix|] == DeleteCommandPrefix
    ensures group == [] ==> r == DeleteCommandPrefix
    ensures |group| >= 1 ==> |r| == |DeleteCommandPrefix| + TotalLength(Names(group)) + |group| - 1
  {
    DeleteCommandPrefix + Join(Names(group), ' ')
  }

  /** Git forbids spaces in ref names, so the command names each branch of
      the group, in group order, as its own space-separated argument after
      the fixed prefix. */
  lemma DeleteCommandNamesGroup(group: seq<Branch>)
    requires |group| >= 1
    requires forall i :: 0 <= i < |group| ==> ' ' !in group[i].name
    ensures |DeleteCommandPrefix| <= |DeleteCommand(group)|
    ensures var args := Split(DeleteCommand(group)[|DeleteCommandPrefix|..], ' ');
            |args| == |group| && forall i :: 0 <= i < |group| ==> args[i] == group[i].name
  {
    SplitJoin(Names(group), ' ');
    assert DeleteCommand(group)[|DeleteCommandPrefix|..] == Join(Names(group), ' ');
  }

  function CompareBase(repo: string): string
  {
    GithubUrl + repo + CompareInfix
  }

  /** Reads the branch name back out of a compare link, if it is one. */
  function LinkedBranch(repo: string, link: string): Option<string>
  {
    var base := CompareBase(repo);
    if |base| < |link| && link[..|base|] == base && link[|link| - 1] == '\n'
    then Some(link[|base|..|link| - 1])
    else None
  }

  /** The compare-view link of one branch; it decodes back to that branch's
      name. */
  function CompareLink(repo: string, name: string): (r: string)
    ensures LinkedBranch(repo, r) == Some(name)
  {
    var base := CompareBase(repo);
    var link := base + name + "\n";
    assert link[..|base|] == base;
    assert link[|base|..|link| - 1] == name;
    link
  }

  /** Only a compare link decodes: whatever decodes to `name` is its link. */
  lemma LinkedBranchOnlyOfCompareLink(repo: string, link: string, name: string)
    requires LinkedBranch(repo, link) == Some(name)
    ensures link == CompareLink(repo, name)
  {
    var base := CompareBase(repo);
    assert link == link[..|base|] + link[|base|..|link| - 1] + [link[|link| - 1]];
  }

  /** The list comprehension of compare links: one link per branch of the
      group, in group order, each naming its branch. */
  function CompareLinks(repo: string, group: seq<Branch>): (r: seq<string>)
    ensures |r| == |group|
    ensures forall i :: 0 <= i < |group| ==> LinkedBranch(repo, r[i]) == Some(group[i].name)
  {
    seq(|group|, i requires 0 <= i < |group| => CompareLink(repo, group[i].name))
  }
}
