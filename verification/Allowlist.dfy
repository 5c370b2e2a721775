/** internal/controller/allowlist_cache.go: the cache of allowed repositories, against the history of
    its Set and Delete calls. Go visits a map in any order; so do the loops here. */
module Allowlist {
  import opened Options

  /** The fields of a ClaudeRepository that the cache and its callers use. */
  datatype Repo = Repo(pattern: string, allowedUsers: seq<string>, allowedRoles: seq<string>, labels: seq<string>)

  /** The regexp package: which patterns compile, and what the compiled `^pattern$` matches. */
  datatype Regex = Regex(compiles: string -> bool, matches: (string, string) -> bool)

  type Client = nat

  class ClaudeRepository {
    var pattern: string
    var allowedUsers: seq<string>
    var allowedRoles: seq<string>
    var labels: seq<string>

    constructor (repo: Repo)
      ensures View() == repo
    {
      pattern, allowedUsers, allowedRoles, labels := repo.pattern, repo.allowedUsers, repo.allowedRoles, repo.labels;
    }

    function View(): Repo
      reads this
    {
      Repo(pattern, allowedUsers, allowedRoles, labels)
    }

    method DeepCopy() returns (copied: ClaudeRepository)
      ensures fresh(copied) && copied.View() == View()
    {
      copied := new ClaudeRepository(View());
    }
  }

  // ---------- the history of the cache ----------

  datatype Event =
    | Set(key: string, repo: Repo)
    | Delete(key: string)

  /** A Set stores under `patterns` when its pattern compiles and under `exact` otherwise. */
  predicate GoesToPatterns(regex: Regex, repo: Repo) {
    repo.pattern != "" && regex.compiles(repo.pattern)
  }

  /** Event `i` put an entry for `key` in one of the two maps, and the entry is still there. */
  ghost predicate Survives(regex: Regex, h: seq<Event>, i: int, key: string, isPattern: bool) {
    && 0 <= i < |h| && h[i].Set? && h[i].key == key && GoesToPatterns(regex, h[i].repo) == isPattern
    && forall j :: i < j < |h| && h[j].key == key ==> h[j].Set? && GoesToPatterns(regex, h[j].repo) != isPattern
  }

  /** `repo` is a surviving entry for `name`: the exact one if there is one, else any pattern. */
  ghost predicate Entry(regex: Regex, h: seq<Event>, name: string, repo: Repo) {
    || (exists i :: Survives(regex, h, i, name, false) && h[i].repo == repo)
    || ((forall i :: !Survives(regex, h, i, name, false))
        && exists i, key :: Survives(regex, h, i, key, true) && h[i].repo == repo && regex.matches(repo.pattern, name))
  }

  /** Some surviving exact entry has the name, or some surviving pattern matches it. */
  ghost predicate Allowed(regex: Regex, h: seq<Event>, name: string) {
    || (exists i :: Survives(regex, h, i, name, false))
    || (exists i, key :: Survives(regex, h, i, key, true) && regex.matches(h[i].repo.pattern, name))
  }

  /** The maps that the history leads to. */
  function Stored(regex: Regex, h: seq<Event>, isPattern: bool): map<string, Repo> {
    if h == [] then map[]
    else
      var m := Stored(regex, h[..|h| - 1], isPattern);
      match h[|h| - 1]
      case Set(key, repo) => if GoesToPatterns(regex, repo) == isPattern then m[key := repo] else m
      case Delete(key) => m - {key}
  }

  lemma StoredStep(regex: Regex, h: seq<Event>, e: Event, isPattern: bool)
    ensures var m := Stored(regex, h, isPattern);
            Stored(regex, h + [e], isPattern) ==
              if e.Delete? then m - {e.key}
              else if GoesToPatterns(regex, e.repo) == isPattern then m[e.key := e.repo] else m
  {
    hide GoesToPatterns;
    assert (h + [e])[..|h|] == h;
  }

  lemma SurvivesBefore(regex: Regex, h: seq<Event>, i: int, key: string, isPattern: bool)
    requires h != [] && 0 <= i < |h| - 1
    ensures var e := h[|h| - 1];
            Survives(regex, h, i, key, isPattern) <==>
              Survives(regex, h[..|h| - 1], i, key, isPattern)
              && !(e.key == key && (e.Delete? || GoesToPatterns(regex, e.repo) == isPattern))
  {
    hide GoesToPatterns;
    var init := h[..|h| - 1];
    assert forall j :: 0 <= j < |init| ==> init[j] == h[j];
    if Survives(regex, init, i, key, isPattern) && h[|h| - 1].key != key {
      assert forall j :: i < j < |h| && h[j].key == key ==> j < |init|;
    }
  }

  /** The maps hold exactly the surviving entries. */
  lemma {:induction false} StoredIff(regex: Regex, h: seq<Event>, key: string, isPattern: bool)
    ensures var m := Stored(regex, h, isPattern);
            && (key in m <==> exists i :: Survives(regex, h, i, key, isPattern))
            && (forall i :: Survives(regex, h, i, key, isPattern) ==> key in m && m[key] == h[i].repo)
  {
    if h != [] {
      hide GoesToPatterns;
      var n := |h| - 1;
      StoredIff(regex, h[..n], key, isPattern);
      forall i | 0 <= i < n
        ensures Survives(regex, h, i, key, isPattern) <==>
                  Survives(regex, h[..n], i, key, isPattern)
                  && !(h[n].key == key && (h[n].Delete? || GoesToPatterns(regex, h[n].repo) == isPattern))
      {
        SurvivesBefore(regex, h, i, key, isPattern);
      }
      assert h[n].Set? && h[n].key == key && GoesToPatterns(regex, h[n].repo) == isPattern ==>
          Survives(regex, h, n, key, isPattern);
      assert forall i :: 0 <= i < n ==> h[..n][i] == h[i];
      assert forall i :: Survives(regex, h[..n], i, key, isPattern) ==> i < n;
    }
  }

  /** What the two maps say about a name. */
  ghost predicate AllowedIn(regex: Regex, exact: map<string, Repo>, patterns: map<string, Repo>, name: string) {
    name in exact || exists key :: key in patterns && regex.matches(patterns[key].pattern, name)
  }

  ghost predicate EntryIn(regex: Regex, exact: map<string, Repo>, patterns: map<string, Repo>, name: string,
      repo: Repo) {
    if name in exact then repo == exact[name]
    else exists key :: key in patterns && patterns[key] == repo && regex.matches(repo.pattern, name)
  }

  lemma StoredWitness(regex: Regex, h: seq<Event>, key: string, isPattern: bool) returns (i: int)
    requires key in Stored(regex, h, isPattern)
    ensures Survives(regex, h, i, key, isPattern) && Stored(regex, h, isPattern)[key] == h[i].repo
  {
    StoredIff(regex, h, key, isPattern);
    i :| Survives(regex, h, i, key, isPattern);
  }

  lemma EntryInIff(regex: Regex, h: seq<Event>, name: string, repo: Repo)
    ensures EntryIn(regex, Stored(regex, h, false), Stored(regex, h, true), name, repo) <==> Entry(regex, h, name, repo)
  {
    var exact, patterns := Stored(regex, h, false), Stored(regex, h, true);
    StoredIff(regex, h, name, false);
    hide Stored;
    if EntryIn(regex, exact, patterns, name, repo) {
      if name in exact {
        var i := StoredWitness(regex, h, name, false);
      } else {
        var key :| key in patterns && patterns[key] == repo && regex.matches(repo.pattern, name);
        var i := StoredWitness(regex, h, key, true);
      }
    }
    if Entry(regex, h, name, repo) && name !in exact {
      var i, key :| Survives(regex, h, i, key, true) && 0 <= i < |h| && h[i].Set? && h[i].repo == repo
          && regex.matches(repo.pattern, name);
      StoredIff(regex, h, key, true);
      assert key in patterns && patterns[key] == repo;
    }
  }

  /** The maps answer every question about a name as the history does. */
  lemma MapsAnswerForHistory(regex: Regex, h: seq<Event>, name: string)
    ensures var exact, patterns := Stored(regex, h, false), Stored(regex, h, true);
            && (AllowedIn(regex, exact, patterns, name) <==> Allowed(regex, h, name))
            && (forall repo :: EntryIn(regex, exact, patterns, name, repo) <==> Entry(regex, h, name, repo))
  {
    var exact, patterns := Stored(regex, h, false), Stored(regex, h, true);
    forall repo ensures EntryIn(regex, exact, patterns, name, repo) <==> Entry(regex, h, name, repo) {
      EntryInIff(regex, h, name, repo);
    }
    StoredIff(regex, h, name, false);
    hide Stored, Entry;
    if AllowedIn(regex, exact, patterns, name) && name !in exact {
      var key :| key in patterns && regex.matches(patterns[key].pattern, name);
      var i := StoredWitness(regex, h, key, true);
    }
    if Allowed(regex, h, name) && name !in exact {
      var i, key :| Survives(regex, h, i, key, true) && 0 <= i < |h| && h[i].Set?
          && regex.matches(h[i].repo.pattern, name);
      StoredIff(regex, h, key, true);
      assert key in patterns && patterns[key] == h[i].repo;
    }
  }

  // ---------- the cache ----------

  class AllowlistCache {
    const regex: Regex
    var exact: map<string, ClaudeRepository>
    var patterns: map<string, ClaudeRepository>
    var clients: map<string, Client>
    var globalAllowedUsers: seq<string>
    var globalAllowedRoles: seq<string>
    ghost var history: seq<Event>
    ghost var Repr: set<object>

    /** The maps hold private objects with the values that the history leads to. */
    ghost predicate Valid()
      reads this, Repr
    {
      this in Repr && Represents(exact, patterns, history, Repr - {this})
    }

    /** Two maps of objects in `entries` stand for a history. */
    ghost predicate Represents(exact: map<string, ClaudeRepository>, patterns: map<string, ClaudeRepository>,
                               history: seq<Event>, entries: set<object>)
      reads entries
    {
      && (forall key :: key in exact ==> exact[key] in entries)
      && (forall key :: key in patterns ==> patterns[key] in entries)
      && Views(exact) == Stored(regex, history, false)
      && Views(patterns) == Stored(regex, history, true)
    }

    ghost function Views(m: map<string, ClaudeRepository>): map<string, Repo>
      reads m.Values
    {
      map key | key in m :: m[key].View()
    }

    constructor (regex: Regex)
      ensures Valid() && fresh(Repr) && history == [] && this.regex == regex
      ensures clients == map[] && globalAllowedUsers == [] && globalAllowedRoles == []
    {
      this.regex := regex;
      exact, patterns, clients := map[], map[], map[];
      globalAllowedUsers, globalAllowedRoles := [], [];
      history := [];
      Repr := {this};
    }

    /** Set keeps a deep copy, so later changes to `repo` are not seen. */
    method Set(fullName: string, repo: ClaudeRepository)
      requires Valid()
      modifies this`exact, this`patterns, this`history, this`Repr
      ensures Valid() && fresh(Repr - old(Repr))
      ensures history == old(history) + [Event.Set(fullName, old(repo.View()))]
    {
      hide Stored, Views, Represents;
      ghost var e := Event.Set(fullName, repo.View());
      var copied := repo.DeepCopy();
      AfterSet(exact, patterns, history, Repr - {this}, fullName, copied);
      if copied.pattern != "" {
        if !regex.compiles(copied.pattern) {
          exact := exact[fullName := copied];
        } else {
          patterns := patterns[fullName := copied];
        }
      } else {
        exact := exact[fullName := copied];
      }
      history := history + [e];
      Repr := Repr + {copied};
      assert Repr - {this} == old(Repr) - {this} + {copied};
    }

    /** The maps after a Set hold what the longer history leads to. */
    lemma AfterSet(exact: map<string, ClaudeRepository>, patterns: map<string, ClaudeRepository>,
                   history: seq<Event>, entries: set<object>, fullName: string, copied: ClaudeRepository)
      requires Represents(exact, patterns, history, entries)
      ensures var isPattern := GoesToPatterns(regex, copied.View());
              Represents(if isPattern then exact else exact[fullName := copied],
                         if isPattern then patterns[fullName := copied] else patterns,
                         history + [Event.Set(fullName, copied.View())], entries + {copied})
    {
      hide Stored, Views;
      var e := Event.Set(fullName, copied.View());
      StoredStep(regex, history, e, false);
      StoredStep(regex, history, e, true);
      ViewsPut(exact, fullName, copied);
      ViewsPut(patterns, fullName, copied);
    }

    lemma ViewsPut(m: map<string, ClaudeRepository>, key: string, repo: ClaudeRepository)
      ensures Views(m[key := repo]) == Views(m)[key := repo.View()]
    {
    }

    method Delete(fullName: string)
      requires Valid()
      modifies this`exact, this`patterns, this`history
      ensures Valid() && Repr == old(Repr)
      ensures history == old(history) + [Event.Delete(fullName)]
    {
      hide Stored, Views, Represents;
      AfterDelete(exact, patterns, history, Repr - {this}, fullName);
      exact := exact - {fullName};
      patterns := patterns - {fullName};
      history := history + [Event.Delete(fullName)];
    }

    lemma AfterDelete(exact: map<string, ClaudeRepository>, patterns: map<string, ClaudeRepository>,
                      history: seq<Event>, entries: set<object>, fullName: string)
      requires Represents(exact, patterns, history, entries)
      ensures Represents(exact - {fullName}, patterns - {fullName}, history + [Event.Delete(fullName)], entries)
    {
      hide Stored;
      StoredStep(regex, history, Event.Delete(fullName), false);
      StoredStep(regex, history, Event.Delete(fullName), true);
      assert Views(exact - {fullName}) == Views(exact) - {fullName};
      assert Views(patterns - {fullName}) == Views(patterns) - {fullName};
    }

    method SetGlobalAllowlist(users: seq<string>, roles: seq<string>)
      requires Valid()
      modifies this`globalAllowedUsers, this`globalAllowedRoles
      ensures Valid() && globalAllowedUsers == users && globalAllowedRoles == roles
    {
      globalAllowedUsers, globalAllowedRoles := users, roles;
    }

    /** An entry whose pattern matches, found in any order. */
    method FindPattern(fullName: string) returns (found: ClaudeRepository?)
      requires Valid()
      ensures found != null ==> exists key :: key in patterns && patterns[key] == found
      ensures found != null ==> regex.matches(found.pattern, fullName)
      ensures found == null ==> forall key :: key in patterns ==> !regex.matches(patterns[key].pattern, fullName)
    {
      var keys := patterns.Keys;
      while keys != {}
        invariant keys <= patterns.Keys
        invariant forall key :: key in patterns && key !in keys ==> !regex.matches(patterns[key].pattern, fullName)
        decreases |keys|
      {
        var key :| key in keys;
        if regex.matches(patterns[key].pattern, fullName) {
          return patterns[key];
        }
        keys := keys - {key};
      }
      return null;
    }

    method IsAllowed(fullName: string) returns (allowed: bool)
      requires Valid()
      ensures allowed <==> Allowed(regex, history, fullName)
    {
      MapsAnswerForHistory(regex, history, fullName);
      hide Allowed, Stored, Entry;
      if fullName in exact {
        assert fullName in Views(exact);
        return true;
      }
      var entry := FindPattern(fullName);
      assert forall key :: key in patterns ==> Views(patterns)[key] == patterns[key].View();
      return entry != null;
    }

    /** The answer is a fresh copy: what the caller does with it never changes a later answer. */
    method Get(fullName: string) returns (repo: ClaudeRepository?)
      requires Valid()
      ensures repo != null ==> fresh(repo) && Entry(regex, history, fullName, repo.View())
      ensures repo == null <==> !Allowed(regex, history, fullName)
    {
      MapsAnswerForHistory(regex, history, fullName);
      hide Allowed, Stored, Entry;
      assert forall key :: key in patterns ==> Views(patterns)[key] == patterns[key].View();
      if fullName in exact {
        assert Views(exact)[fullName] == exact[fullName].View();
        repo := exact[fullName].DeepCopy();
        assert EntryIn(regex, Views(exact), Views(patterns), fullName, repo.View());
        return;
      }
      var entry := FindPattern(fullName);
      if entry == null {
        return null;
      }
      repo := entry.DeepCopy();
      assert EntryIn(regex, Views(exact), Views(patterns), fullName, repo.View());
    }

    method GetClient(fullName: string) returns (client: Option<Client>)
      ensures client == if fullName in clients then Some(clients[fullName]) else None
    {
      client := if fullName in clients then Some(clients[fullName]) else None;
    }

    method SetClient(fullName: string, client: Client)
      requires Valid()
      modifies this`clients
      ensures Valid() && clients == old(clients)[fullName := client]
    {
      clients := clients[fullName := client];
    }

    /** The global lists, followed by those of exactly one entry for the name, if there is one. */
    ghost predicate Merged(fullName: string, users: seq<string>, roles: seq<string>)
      reads this
    {
      if Allowed(regex, history, fullName)
      then exists repo :: Entry(regex, history, fullName, repo)
                          && users == globalAllowedUsers + repo.allowedUsers
                          && roles == globalAllowedRoles + repo.allowedRoles
      else users == globalAllowedUsers && roles == globalAllowedRoles
    }

    method GetMergedAllowlist(fullName: string) returns (users: seq<string>, roles: seq<string>)
      requires Valid()
      ensures Merged(fullName, users, roles)
      ensures !Allowed(regex, history, fullName) ==> users == globalAllowedUsers && roles == globalAllowedRoles
      ensures Allowed(regex, history, fullName) ==>
                exists repo :: Entry(regex, history, fullName, repo)
                               && users == globalAllowedUsers + repo.allowedUsers
                               && roles == globalAllowedRoles + repo.allowedRoles
    {
      MapsAnswerForHistory(regex, history, fullName);
      hide Allowed, Stored, Entry;
      assert forall key :: key in patterns ==> Views(patterns)[key] == patterns[key].View();
      users, roles := globalAllowedUsers, globalAllowedRoles;
      if fullName in exact {
        var repo := exact[fullName];
        assert Views(exact)[fullName] == repo.View();
        assert EntryIn(regex, Views(exact), Views(patterns), fullName, repo.View());
        return users + repo.allowedUsers, roles + repo.allowedRoles;
      }
      var entry := FindPattern(fullName);
      if entry != null {
        assert EntryIn(regex, Views(exact), Views(patterns), fullName, entry.View());
        return users + entry.allowedUsers, roles + entry.allowedRoles;
      }
    }
  }

  /** A name is allowed exactly when it has an entry to be described by. */
  lemma AllowedHasEntry(regex: Regex, h: seq<Event>, name: string)
    ensures Allowed(regex, h, name) <==> exists repo :: Entry(regex, h, name, repo)
  {
    var exact, patterns := Stored(regex, h, false), Stored(regex, h, true);
    MapsAnswerForHistory(regex, h, name);
    hide Allowed, Entry, Stored;
    if name in exact {
      assert EntryIn(regex, exact, patterns, name, exact[name]);
    } else if AllowedIn(regex, exact, patterns, name) {
      var key :| key in patterns && regex.matches(patterns[key].pattern, name);
      assert EntryIn(regex, exact, patterns, name, patterns[key]);
    }
  }

  /** Deleting a key and setting nothing for it afterwards leaves no entry under it. */
  lemma DeletedIsGone(regex: Regex, h: seq<Event>, later: seq<Event>, key: string, isPattern: bool)
    requires forall i :: 0 <= i < |later| && later[i].key == key ==> later[i].Delete?
    ensures key !in Stored(regex, h + [Event.Delete(key)] + later, isPattern)
  {
    var all := h + [Event.Delete(key)] + later;
    StoredIff(regex, all, key, isPattern);
    assert all[|h|] == Event.Delete(key);
    assert forall j :: 0 <= j < |later| ==> all[|h| + 1 + j] == later[j];
    forall i ensures !Survives(regex, all, i, key, isPattern) {
      assert |h| < i < |all| ==> all[i] == later[i - |h| - 1];
    }
  }

  /** An exact entry under a name alone answers for it. */
  lemma ExactAnswers(regex: Regex, h: seq<Event>, name: string)
    requires name in Stored(regex, h, false)
    ensures Allowed(regex, h, name)
    ensures forall r :: Entry(regex, h, name, r) <==> r == Stored(regex, h, false)[name]
  {
    MapsAnswerForHistory(regex, h, name);
    hide Allowed, Entry, Stored;
    forall r ensures Entry(regex, h, name, r) <==> r == Stored(regex, h, false)[name] {
      assert EntryIn(regex, Stored(regex, h, false), Stored(regex, h, true), name, r) <==> Entry(regex, h, name, r);
    }
  }

  /** A pattern that is set, under whatever key, answers for a name that it matches if and only if no
      other exact entry is stored under that name; one that is stored stays, and it alone answers. */
  lemma PatternBehindExact(regex: Regex, h: seq<Event>, key: string, name: string, repo: Repo)
    requires GoesToPatterns(regex, repo) && regex.matches(repo.pattern, name)
    ensures var h' := h + [Event.Set(key, repo)];
            && (Entry(regex, h', name, repo)
                <==> name !in Stored(regex, h, false) || Stored(regex, h, false)[name] == repo)
            && (name in Stored(regex, h, false) ==>
                  forall r :: Entry(regex, h', name, r) <==> r == Stored(regex, h, false)[name])
  {
    var h' := h + [Event.Set(key, repo)];
    StoredStep(regex, h, Event.Set(key, repo), false);
    StoredStep(regex, h, Event.Set(key, repo), true);
    MapsAnswerForHistory(regex, h', name);
    hide Entry, Stored;
    assert EntryIn(regex, Stored(regex, h', false), Stored(regex, h', true), name, repo)
           <==> Entry(regex, h', name, repo);
    assert Stored(regex, h', true)[key] == repo;
    if name in Stored(regex, h, false) {
      ExactAnswers(regex, h', name);
    }
  }

  /** The controller keys a repository by its name and a pattern by its text. When a repository that is
      listed by name is edited into a pattern, its old entry stays and alone answers for the name; and
      deleting the edited repository does not evict that entry, unless the pattern is the name itself. */
  lemma StaleExactAnswers(regex: Regex, name: string, old': Repo, repo: Repo)
    requires old'.pattern == "" && GoesToPatterns(regex, repo) && regex.matches(repo.pattern, name)
    ensures var edited := [Event.Set(name, old'), Event.Set(repo.pattern, repo)];
            forall r :: Entry(regex, edited, name, r) <==> r == old'
    ensures var deleted := [Event.Set(name, old'), Event.Set(repo.pattern, repo), Event.Delete(repo.pattern)];
            if repo.pattern == name then !Allowed(regex, deleted, name)
            else Allowed(regex, deleted, name) && forall r :: Entry(regex, deleted, name, r) <==> r == old'
  {
    var set0, set1, del := Event.Set(name, old'), Event.Set(repo.pattern, repo), Event.Delete(repo.pattern);
    assert Stored(regex, [], false) == map[] && Stored(regex, [], true) == map[];
    StoredBoth(regex, [], set0);
    StoredBoth(regex, [set0], set1);
    StoredBoth(regex, [set0, set1], del);
    assert [] + [set0] == [set0] && [set0] + [set1] == [set0, set1] && [set0, set1] + [del] == [set0, set1, del];
    hide Stored, Entry, Allowed;
    ExactAnswers(regex, [set0, set1], name);
    if repo.pattern != name {
      ExactAnswers(regex, [set0, set1, del], name);
    } else {
      MapsAnswerForHistory(regex, [set0, set1, del], name);
    }
  }

  lemma StoredBoth(regex: Regex, h: seq<Event>, e: Event)
    ensures forall isPattern :: Stored(regex, h + [e], isPattern) ==
              var m := Stored(regex, h, isPattern);
              if e.Delete? then m - {e.key}
              else if GoesToPatterns(regex, e.repo) == isPattern then m[e.key := e.repo] else m
  {
    StoredStep(regex, h, e, false);
    StoredStep(regex, h, e, true);
  }

  /** Which map a repository is stored in: it answers for the names that its pattern matches exactly when
      it has a pattern and that compiles; otherwise it answers for its key. */
  lemma SetMeans(regex: Regex, h: seq<Event>, key: string, repo: Repo, name: string)
    ensures var h' := h + [Event.Set(key, repo)];
            && (repo.pattern == "" || !regex.compiles(repo.pattern) ==>
                  && (forall r :: Entry(regex, h', key, r) <==> r == repo)
                  && (name != key ==> (Allowed(regex, h', name) <==> Allowed(regex, h, name))))
            && (repo.pattern != "" && regex.compiles(repo.pattern) ==>
                  && (name in Stored(regex, h', false) <==> name in Stored(regex, h, false))
                  && (regex.matches(repo.pattern, name) ==> Allowed(regex, h', name)))
  {
    var h' := h + [Event.Set(key, repo)];
    StoredBoth(regex, h, Event.Set(key, repo));
    MapsAnswerForHistory(regex, h, name);
    MapsAnswerForHistory(regex, h', name);
    hide Stored, Allowed, Entry;
    if repo.pattern == "" || !regex.compiles(repo.pattern) {
      ExactAnswers(regex, h', key);
    } else if regex.matches(repo.pattern, name) {
      assert Stored(regex, h', true)[key] == repo;
    }
  }
}
