/** internal/sandbox/client.go: the name of the SandboxClaim of a task. */
module ClaimNames {
  import opened Text

  function LowerChar(c: char): char {
    if 'A' <= c <= 'Z' then c + 32 as char else c
  }

  /** strings.ToLower on ASCII. */
  function ToLower(s: string): string {
    seq(|s|, i requires 0 <= i < |s| => LowerChar(s[i]))
  }

  predicate IsAlnum(c: char) {
    'a' <= c <= 'z' || IsDigit(c)
  }

  /** The characters outside the class of sanitizeRe. */
  predicate Kept(c: char) {
    IsAlnum(c) || c == '-'
  }

  predicate AllKept(s: string) {
    forall i :: 0 <= i < |s| ==> Kept(s[i])
  }

  /** sanitizeRe.ReplaceAllString(s, "-"): every maximal run of other characters becomes one
      dash. `inRun` tells that `s` continues such a run. */
  function Sanitize(s: string, inRun: bool): (t: string)
    ensures AllKept(t)
  {
    if s == "" then ""
    else if Kept(s[0]) then [s[0]] + Sanitize(s[1..], false)
    else (if inRun then "" else "-") + Sanitize(s[1..], true)
  }

  function TrimLeft(s: string): (t: string)
    ensures t != "" ==> t[0] != '-'
    ensures |t| <= |s| && t == s[|s| - |t|..]
  {
    if s != "" && s[0] == '-' then TrimLeft(s[1..]) else s
  }

  function TrimRight(s: string): string {
    if s != "" && s[|s| - 1] == '-' then TrimRight(s[..|s| - 1]) else s
  }

  function ClaimName(owner: string, repo: string, issue: nat): string {
    var raw := owner + "-" + repo + "-issue-" + Decimal(issue);
    TrimRight(TrimLeft(Sanitize(ToLower(raw), false)))
  }

  /** The part of the name that depends on the repository: empty, or ending in a dash. */
  function Slug(owner: string, repo: string): string {
    TrimLeft(Sanitize(ToLower(owner + "-" + repo), false) + "-")
  }

  lemma Regroup(a: string, b: string, c: string)
    ensures a + b + c == a + (b + c)
  {
  }

  /** What the first character becomes. */
  function SanitizedFirst(c: char, inRun: bool): string {
    if Kept(c) then [c] else if inRun then "" else "-"
  }

  lemma SanitizeStep(s: string, t: string, inRun: bool)
    requires s != ""
    ensures Sanitize(s + t, inRun) == SanitizedFirst(s[0], inRun) + Sanitize(s[1..] + t, !Kept(s[0]))
  {
    hide Kept;
    assert (s + t)[1..] == s[1..] + t;
  }

  lemma {:induction false} SanitizeConcat(a: string, b: string, inRun: bool)
    requires b != "" && Kept(b[0])
    ensures Sanitize(a + b, inRun) == Sanitize(a, inRun) + Sanitize(b, false)
  {
    if a == "" {
      assert a + b == b;
    } else {
      hide Sanitize, Kept, AllKept, SanitizedFirst;
      SanitizeStep(a, b, inRun);
      SanitizeStep(a, "", inRun);
      assert a + "" == a && a[1..] + "" == a[1..];
      SanitizeConcat(a[1..], b, !Kept(a[0]));
      Regroup(SanitizedFirst(a[0], inRun), Sanitize(a[1..], !Kept(a[0])), Sanitize(b, false));
    }
  }

  lemma {:induction false} SanitizeKept(b: string)
    requires AllKept(b)
    ensures Sanitize(b, false) == b
  {
    if b != "" {
      SanitizeKept(b[1..]);
    }
  }

  lemma {:induction false} TrimLeftConcat(a: string, b: string)
    requires b != "" && b[0] != '-'
    ensures TrimLeft(a + b) == TrimLeft(a) + b
  {
    if a == "" {
      assert a + b == b;
    } else {
      assert (a + b)[1..] == a[1..] + b;
      TrimLeftConcat(a[1..], b);
    }
  }

  /** The end of every claim name. */
  function Ending(issue: nat): string {
    "issue-" + Decimal(issue)
  }

  lemma EndingKept(issue: nat)
    ensures AllKept("-" + Ending(issue)) && ToLower("-" + Ending(issue)) == "-" + Ending(issue)
    ensures Ending(issue) != "" && Ending(issue)[0] == 'i' && IsDigit(Ending(issue)[|Ending(issue)| - 1])
  {
    hide Decimal, NumberOf;
    var t := "-" + Ending(issue);
    assert t == "-issue-" + Decimal(issue);
    assert forall i :: 0 <= i < |t| ==> t[i] == if i < 7 then "-issue-"[i] else Decimal(issue)[i - 7];
  }

  lemma LowerConcat(a: string, b: string)
    ensures ToLower(a + b) == ToLower(a) + ToLower(b)
  {
  }

  lemma RawName(owner: string, repo: string, issue: nat)
    ensures owner + "-" + repo + "-issue-" + Decimal(issue) == (owner + "-" + repo) + ("-" + Ending(issue))
  {
    hide Decimal, NumberOf;
    assert "-issue-" == "-" + "issue-";
  }

  lemma TrimRightDone(s: string)
    requires s != "" ==> s[|s| - 1] != '-'
    ensures TrimRight(s) == s
  {
  }

  /** Sanitizing and trimming on the left only touch what precedes the ending. */
  lemma TrimmedName(owner: string, repo: string, issue: nat)
    ensures TrimLeft(Sanitize(ToLower(owner + "-" + repo + "-issue-" + Decimal(issue)), false))
            == Slug(owner, repo) + Ending(issue)
  {
    hide Decimal, NumberOf, Ending, Sanitize, ToLower, TrimLeft;
    var head, tail := owner + "-" + repo, "-" + Ending(issue);
    RawName(owner, repo, issue);
    EndingKept(issue);
    LowerConcat(head, tail);
    SanitizeConcat(ToLower(head), tail, false);
    SanitizeKept(tail);
    var x := Sanitize(ToLower(head), false);
    assert x + tail == (x + "-") + Ending(issue);
    TrimLeftConcat(x + "-", Ending(issue));
  }

  /** A claim name is the slug of its repository followed by "issue-" and the issue number. */
  lemma NameShape(owner: string, repo: string, issue: nat)
    ensures ClaimName(owner, repo, issue) == Slug(owner, repo) + Ending(issue)
  {
    hide Decimal, NumberOf, Ending, Sanitize, ToLower, TrimLeft, TrimRight, Slug;
    TrimmedName(owner, repo, issue);
    EndingKept(issue);
    var name := Slug(owner, repo) + Ending(issue);
    assert name[|name| - 1] == Ending(issue)[|Ending(issue)| - 1];
    TrimRightDone(name);
  }

  /** What a name of kept characters with alphanumeric ends consists of. */
  predicate IsLabel(name: string) {
    && name != ""
    && (forall i :: 0 <= i < |name| ==>
          'a' <= name[i] <= 'z' || '0' <= name[i] <= '9' || (name[i] == '-' && 0 < i < |name| - 1))
  }

  lemma KeptIsLabel(name: string)
    requires name != "" && AllKept(name) && IsAlnum(name[0]) && IsAlnum(name[|name| - 1])
    ensures IsLabel(name)
  {
  }

  /** Claim names are lower-case DNS labels up to their length. */
  lemma NameIsLabel(owner: string, repo: string, issue: nat)
    ensures var name := ClaimName(owner, repo, issue);
            IsLabel(name)
  {
    hide IsLabel, ClaimName, Slug, Ending, Kept, IsDigit;
    NameShape(owner, repo, issue);
    SlugKept(owner, repo);
    EndingKept(issue);
    var slug, end := Slug(owner, repo), Ending(issue);
    var name := slug + end;
    assert AllKept(end) by {
      assert forall i :: 0 <= i < |end| ==> ("-" + end)[i + 1] == end[i];
    }
    assert name[|name| - 1] == end[|end| - 1];
    assert name[0] == if slug == "" then end[0] else slug[0];
    KeptIsLabel(name);
  }

  /** A slug is of kept characters and does not begin with a dash. */
  lemma SlugKept(owner: string, repo: string)
    ensures var slug := Slug(owner, repo);
            AllKept(slug) && (slug != "" ==> IsAlnum(slug[0]))
  {
    hide Sanitize, ToLower, TrimLeft;
    var x := Sanitize(ToLower(owner + "-" + repo), false) + "-";
    var slug := TrimLeft(x);
    assert slug == x[|x| - |slug|..];
    assert forall i :: 0 <= i < |slug| ==> slug[i] == x[|x| - |slug| + i];
  }

  /** What follows the last dash. */
  function AfterLastDash(s: string): string {
    if s == "" || s[|s| - 1] == '-' then "" else AfterLastDash(s[..|s| - 1]) + [s[|s| - 1]]
  }

  lemma {:induction false} AfterLastDashIs(a: string, d: string)
    requires AllDigits(d)
    ensures AfterLastDash(a + "-" + d) == d
  {
    var s := a + "-" + d;
    if d != "" {
      var e := d[..|d| - 1];
      assert s[..|s| - 1] == a + "-" + e;
      AfterLastDashIs(a, e);
      assert d == e + [d[|d| - 1]];
    }
  }

  /** The digits after the last dash are the issue number. */
  lemma IssueOfName(owner: string, repo: string, issue: nat)
    ensures var d := AfterLastDash(ClaimName(owner, repo, issue));
            d != "" && AllDigits(d) && NumberOf(d) == issue
  {
    NameShape(owner, repo, issue);
    assert Slug(owner, repo) + Ending(issue) == (Slug(owner, repo) + "issue") + "-" + Decimal(issue);
    AfterLastDashIs(Slug(owner, repo) + "issue", Decimal(issue));
  }

  /** Two tasks share a claim name exactly when their issue numbers and their slugs agree:
      different issues never touch each other's claim. */
  lemma SameName(owner: string, repo: string, issue: nat, owner': string, repo': string, issue': nat)
    ensures ClaimName(owner, repo, issue) == ClaimName(owner', repo', issue')
            <==> issue == issue' && Slug(owner, repo) == Slug(owner', repo')
  {
    NameShape(owner, repo, issue);
    NameShape(owner', repo', issue');
    IssueOfName(owner, repo, issue);
    IssueOfName(owner', repo', issue');
    if issue == issue' {
      var e := Ending(issue);
      var a, b := Slug(owner, repo), Slug(owner', repo');
      if a + e == b + e {
        assert a == (a + e)[..|a|] == (b + e)[..|b|] == b;
      }
    }
  }

  /** Different repositories can share a slug, so claim names alone do not tell them apart. */
  lemma SlugsCollide()
    ensures Slug("a-b", "c") == Slug("a", "b-c")
  {
    assert "a-b" + "-" + "c" == "a" + "-" + "b-c";
  }

  // ---------- what sanitizing keeps ----------

  /** A maximal run of other characters becomes one dash, whatever surrounds it. */
  lemma SanitizeRun(a: string, run: string, b: string)
    requires run != "" && forall i :: 0 <= i < |run| ==> !Kept(run[i])
    requires (a != "" ==> Kept(a[|a| - 1])) && (b != "" ==> Kept(b[0]))
    ensures Sanitize(a + run + b, false) == Sanitize(a, false) + "-" + Sanitize(b, false)
  {
    hide Sanitize, Kept, AllKept;
    RunIsOneDash(run, b);
    KeptThenRest(a, run + b, false);
    Regroup(a, run, b);
    Regroup(Sanitize(a, false), "-", Sanitize(b, false));
  }

  lemma RunIsOneDash(run: string, b: string)
    requires run != "" && (forall i :: 0 <= i < |run| ==> !Kept(run[i])) && (b != "" ==> Kept(b[0]))
    ensures Sanitize(run + b, false) == "-" + Sanitize(b, false)
  {
    hide Kept;
    assert (run + b)[1..] == run[1..] + b;
    RunThenRest(run[1..], b);
  }

  lemma {:induction false} RunThenRest(run: string, b: string)
    requires (forall i :: 0 <= i < |run| ==> !Kept(run[i])) && (b != "" ==> Kept(b[0]))
    ensures Sanitize(run + b, true) == Sanitize(b, false)
  {
    if run == "" {
      assert run + b == b;
    } else {
      assert (run + b)[1..] == run[1..] + b;
      RunThenRest(run[1..], b);
    }
  }

  lemma {:induction false} KeptThenRest(a: string, t: string, inRun: bool)
    requires a != "" ==> Kept(a[|a| - 1])
    requires a == "" ==> !inRun
    ensures Sanitize(a + t, inRun) == Sanitize(a, inRun) + Sanitize(t, false)
  {
    if a == "" {
      assert a + t == t;
    } else {
      hide Sanitize, Kept, AllKept, SanitizedFirst;
      SanitizeStep(a, t, inRun);
      SanitizeStep(a, "", inRun);
      assert a + "" == a && a[1..] + "" == a[1..];
      KeptThenRest(a[1..], t, !Kept(a[0]));
      Regroup(SanitizedFirst(a[0], inRun), Sanitize(a[1..], !Kept(a[0])), Sanitize(t, false));
    }
  }

  /** The same character, or the capital and the small form of one letter. */
  predicate SameLetter(c: char, d: char) {
    || c == d
    || ('A' <= c <= 'Z' && d as int == c as int + 32)
    || ('A' <= d <= 'Z' && c as int == d as int + 32)
  }

  predicate SameUpToCase(s: string, t: string) {
    |s| == |t| && forall i :: 0 <= i < |s| ==> SameLetter(s[i], t[i])
  }

  /** Lowering identifies exactly the strings that differ in case only, and leaves strings without
      capitals alone. */
  lemma LowerIsCase(s: string, t: string)
    ensures ToLower(s) == ToLower(t) <==> SameUpToCase(s, t)
    ensures (forall i :: 0 <= i < |s| ==> !('A' <= s[i] <= 'Z')) ==> ToLower(s) == s
  {
    assert forall c, d :: LowerChar(c) == LowerChar(d) <==> SameLetter(c, d);
    if ToLower(s) == ToLower(t) {
      assert |s| == |ToLower(s)| == |ToLower(t)| == |t|;
      forall i | 0 <= i < |s| ensures SameLetter(s[i], t[i]) {
        assert ToLower(s)[i] == LowerChar(s[i]) && ToLower(t)[i] == LowerChar(t[i]);
      }
    }
  }

  /** Letters and digits only. */
  predicate Plain(s: string) {
    s != "" && forall i :: 0 <= i < |s| ==> 'a' <= s[i] <= 'z' || 'A' <= s[i] <= 'Z' || '0' <= s[i] <= '9'
  }

  lemma PlainKept(s: string)
    requires Plain(s)
    ensures AllKept(ToLower(s)) && ToLower(s) != "" && '-' !in ToLower(s)
  {
    forall i | 0 <= i < |s| ensures Kept(ToLower(s)[i]) && ToLower(s)[i] != '-' {
      assert ToLower(s)[i] == LowerChar(s[i]);
    }
  }

  lemma PlainSlug(owner: string, repo: string)
    requires Plain(owner) && Plain(repo)
    ensures Slug(owner, repo) == ToLower(owner) + "-" + ToLower(repo) + "-"
  {
    PlainKept(owner);
    PlainKept(repo);
    LowerConcat(owner + "-", repo);
    LowerConcat(owner, "-");
    var low := ToLower(owner) + "-" + ToLower(repo);
    assert ToLower("-") == "-";
    assert ToLower(owner + "-" + repo) == low;
    SanitizeKept(low);
    hide Sanitize, ToLower;
    assert (low + "-")[0] == ToLower(owner)[0] && ToLower(owner)[0] in ToLower(owner);
  }

  /** For repositories of small letters and digits the name is what the format string says. */
  lemma PlainName(owner: string, repo: string, issue: nat)
    requires Plain(owner) && Plain(repo)
    requires forall c :: c in owner || c in repo ==> !('A' <= c <= 'Z')
    ensures ClaimName(owner, repo, issue) == owner + "-" + repo + "-issue-" + Decimal(issue)
  {
    hide ClaimName, Slug, Decimal, ToLower, Ending, Plain;
    NameShape(owner, repo, issue);
    PlainSlug(owner, repo);
    assert forall i :: 0 <= i < |owner| ==> owner[i] in owner;
    assert forall i :: 0 <= i < |repo| ==> repo[i] in repo;
    LowerIsCase(owner, owner);
    LowerIsCase(repo, repo);
    RawName(owner, repo, issue);
    Regroup(owner + "-" + repo, "-", Ending(issue));
  }

  lemma DashSplits(a: string, b: string, a': string, b': string)
    requires '-' !in a && '-' !in a' && a + "-" + b == a' + "-" + b'
    ensures a == a' && b == b'
  {
    var s, s' := a + "-" + b, a' + "-" + b';
    assert s[|a|] == '-' && s'[|a'|] == '-';
    assert forall k :: 0 <= k < |a| ==> s[k] == a[k] && a[k] in a;
    assert forall k :: 0 <= k < |a'| ==> s'[k] == a'[k] && a'[k] in a';
    assert a == s[..|a|] && b == s[|a| + 1..];
  }

  lemma SlugSplits(a: string, b: string, a': string, b': string)
    requires '-' !in a && '-' !in a' && a + "-" + b + "-" == a' + "-" + b' + "-"
    ensures a == a' && b == b'
  {
    var s, s' := a + "-" + b, a' + "-" + b';
    assert s == (s + "-")[..|s|] && s' == (s' + "-")[..|s'|];
    DashSplits(a, b, a', b');
  }

  /** For repositories of letters and digits the name tells everything: two tasks share a claim
      exactly when owner, repository and issue are the same up to case. */
  lemma PlainNamesDistinct(owner: string, repo: string, issue: nat, owner': string, repo': string, issue': nat)
    requires Plain(owner) && Plain(repo) && Plain(owner') && Plain(repo')
    ensures ClaimName(owner, repo, issue) == ClaimName(owner', repo', issue')
            <==> issue == issue' && SameUpToCase(owner, owner') && SameUpToCase(repo, repo')
  {
    PlainKept(owner);
    PlainKept(owner');
    hide ClaimName, Slug, ToLower, SameUpToCase, AllKept, Plain;
    SameName(owner, repo, issue, owner', repo', issue');
    PlainSlug(owner, repo);
    PlainSlug(owner', repo');
    LowerIsCase(owner, owner');
    LowerIsCase(repo, repo');
    if Slug(owner, repo) == Slug(owner', repo') {
      SlugSplits(ToLower(owner), ToLower(repo), ToLower(owner'), ToLower(repo'));
    }
  }
}
