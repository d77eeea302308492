/** Choosing the users and the project a report is about: the insertion-
    ordered dicts the drivers build from the API's user lists, the two
    user filters of the clockify handlers, and the project lookup. The
    API responses are inputs. */
module Users {
  import opened Wrappers
  import opened Slots

  datatype User = User(id: string, name: string)

  /** A project as returned by the projects endpoint. */
  datatype Project = Project(id: string, name: string)

  /** A user with the entry list the API returned for the report window. */
  datatype Probe = Probe(user: User, entries: seq<Entry>)

  /** A Python dict from str to str, in insertion order. */
  type OrderedDict = seq<(string, string)>

  /** `list(d.keys())`. */
  function Keys(d: OrderedDict): (r: seq<string>)
    ensures |r| == |d|
    ensures forall i :: 0 <= i < |d| ==> r[i] == d[i].0
  {
    if |d| == 0 then [] else [d[0].0] + Keys(d[1..])
  }

  /** `list(d.values())`. */
  function Values(d: OrderedDict): (r: seq<string>)
    ensures |r| == |d|
    ensures forall i :: 0 <= i < |d| ==> r[i] == d[i].1
  {
    if |d| == 0 then [] else [d[0].1] + Values(d[1..])
  }

  predicate DistinctKeys(d: OrderedDict) {
    forall i, j :: 0 <= i < j < |d| ==> d[i].0 != d[j].0
  }

  /** Position of key k, or -1 when absent. */
  function IndexOf(d: OrderedDict, k: string): (i: int)
    ensures -1 <= i < |d|
    ensures i >= 0 ==> d[i].0 == k && forall j :: 0 <= j < i ==> d[j].0 != k
    ensures i < 0 ==> forall j :: 0 <= j < |d| ==> d[j].0 != k
  {
    if |d| == 0 then -1
    else if d[0].0 == k then 0
    else
      var j := IndexOf(d[1..], k);
      if j < 0 then -1 else j + 1
  }

  /** `d.get(k)`. */
  function Get(d: OrderedDict, k: string): (r: Option<string>)
    ensures r.Some? <==> k in Keys(d)
  {
    var i := IndexOf(d, k);
    if i < 0 then None else Some(d[i].1)
  }

  /** Dicts whose key columns agree position by position look keys up at
      the same position. */
  lemma IndexOfSameKeys(d: OrderedDict, e: OrderedDict, k: string)
    requires |d| <= |e|
    requires forall j :: 0 <= j < |d| ==> d[j].0 == e[j].0
    requires forall j :: |d| <= j < |e| ==> e[j].0 != k
    ensures IndexOf(d, k) == IndexOf(e, k)
  {
  }

  lemma IndexOfIs(d: OrderedDict, k: string, i: int)
    requires 0 <= i < |d| && d[i].0 == k
    requires forall j :: 0 <= j < i ==> d[j].0 != k
    ensures IndexOf(d, k) == i
  {
  }

  /** `d[k] = v`: an existing key keeps its position and takes the new
      value; a new key goes to the end. */
  function Put(d: OrderedDict, k: string, v: string): (r: OrderedDict)
    requires DistinctKeys(d)
    ensures DistinctKeys(r)
    ensures Keys(r) == if k in Keys(d) then Keys(d) else Keys(d) + [k]
    ensures Get(r, k) == Some(v)
    ensures forall k' :: k' != k ==> Get(r, k') == Get(d, k')
  {
    var i := IndexOf(d, k);
    if i >= 0 then
      assert Keys(d)[i] == k;
      PutReplace(d, k, v, i);
      d[i := (k, v)]
    else
      PutAppend(d, k, v);
      d + [(k, v)]
  }

  /** `d[k] = v` on a present key: same keys, the value at its position
      replaced. */
  lemma PutReplace(d: OrderedDict, k: string, v: string, i: int)
    requires DistinctKeys(d) && 0 <= i == IndexOf(d, k)
    ensures DistinctKeys(d[i := (k, v)]) && Keys(d[i := (k, v)]) == Keys(d)
    ensures Get(d[i := (k, v)], k) == Some(v)
    ensures forall k' :: k' != k ==> Get(d[i := (k, v)], k') == Get(d, k')
  {
    var r := d[i := (k, v)];
    assert forall j :: 0 <= j < |d| ==> r[j].0 == d[j].0;
    SameKeyColumn(d, r);
    IndexOfSameKeys(d, r, k);
    OtherKeysUnchanged(d, r, k);
  }

  /** Dicts with the same key column have the same keys. */
  lemma SameKeyColumn(d: OrderedDict, r: OrderedDict)
    requires |d| == |r| && forall j :: 0 <= j < |d| ==> r[j].0 == d[j].0
    ensures Keys(r) == Keys(d)
    ensures DistinctKeys(d) ==> DistinctKeys(r)
  {
    assert Keys(r) == Keys(d);
  }

  /** `d[k] = v` on a new key: the pair goes to the end. */
  lemma PutAppend(d: OrderedDict, k: string, v: string)
    requires DistinctKeys(d) && IndexOf(d, k) < 0
    ensures DistinctKeys(d + [(k, v)]) && Keys(d + [(k, v)]) == Keys(d) + [k]
    ensures Get(d + [(k, v)], k) == Some(v)
    ensures forall k' :: k' != k ==> Get(d + [(k, v)], k') == Get(d, k')
  {
    var r := d + [(k, v)];
    assert Keys(r) == Keys(d) + [k];
    IndexOfIs(r, k, |d|);
    OtherKeysUnchanged(d, r, k);
  }

  /** A dict that extends d's key column with k only, and keeps every
      pair of d whose key is not k, looks every other key up as d does. */
  lemma OtherKeysUnchanged(d: OrderedDict, r: OrderedDict, k: string)
    requires |d| <= |r|
    requires forall j :: 0 <= j < |d| ==> r[j].0 == d[j].0 && (d[j].0 != k ==> r[j] == d[j])
    requires forall j :: |d| <= j < |r| ==> r[j].0 == k
    ensures forall k' :: k' != k ==> Get(r, k') == Get(d, k')
  {
    forall k' | k' != k ensures Get(r, k') == Get(d, k') {
      IndexOfSameKeys(d, r, k');
    }
  }

  /** Reference order of a dict's keys: each key at its first occurrence. */
  function Dedup(s: seq<string>): (r: seq<string>)
    ensures forall x :: x in r <==> x in s
  {
    if |s| == 0 then []
    else
      var prefix := Dedup(s[..|s| - 1]);
      prefix + (if s[|s| - 1] in prefix then [] else [s[|s| - 1]])
  }

  /** Reference value of a key: the value of its last occurrence. */
  function LastValue(pairs: seq<(string, string)>, k: string): Option<string> {
    if |pairs| == 0 then None
    else if pairs[|pairs| - 1].0 == k then Some(pairs[|pairs| - 1].1)
    else LastValue(pairs[..|pairs| - 1], k)
  }

  function Firsts(pairs: seq<(string, string)>): (r: seq<string>)
    ensures |r| == |pairs|
    ensures forall i :: 0 <= i < |pairs| ==> r[i] == pairs[i].0
  {
    seq(|pairs|, i requires 0 <= i < |pairs| => pairs[i].0)
  }

  /** A dict built by assigning the pairs in order (a dict comprehension,
      or a loop of `d[k] = v`): keys in first-occurrence order, each with
      its last value. */
  function FromPairs(pairs: seq<(string, string)>): (r: OrderedDict)
    ensures DistinctKeys(r)
    ensures Keys(r) == Dedup(Firsts(pairs))
    ensures forall k :: Get(r, k) == LastValue(pairs, k)
  {
    if |pairs| == 0 then []
    else
      var prefix := pairs[..|pairs| - 1];
      assert Firsts(prefix) == Firsts(pairs)[..|pairs| - 1];
      Put(FromPairs(prefix), pairs[|pairs| - 1].0, pairs[|pairs| - 1].1)
  }

  /** The (name, id) pairs of the users whose window had entries. */
  function ActivePairs(probes: seq<Probe>): (r: seq<(string, string)>)
    ensures forall p :: p in r <==> exists i :: 0 <= i < |probes| && |probes[i].entries| > 0
                                               && p == (probes[i].user.name, probes[i].user.id)
  {
    if |probes| == 0 then []
    else
      var last := probes[|probes| - 1];
      var prefix := ActivePairs(probes[..|probes| - 1]);
      assert forall i :: 0 <= i < |probes| - 1 ==> probes[..|probes| - 1][i] == probes[i];
      prefix + (if |last.entries| > 0 then [(last.user.name, last.user.id)] else [])
  }

  /** `get_users_in_work` (excelify, reportify): name -> id for every user
      whose entry list in the window is non-empty. */
  function UsersInWork(probes: seq<Probe>): (r: OrderedDict)
    ensures DistinctKeys(r)
    ensures forall n :: n in Keys(r) <==>
      exists i :: 0 <= i < |probes| && probes[i].user.name == n && |probes[i].entries| > 0
    ensures Keys(r) == Dedup(Firsts(ActivePairs(probes)))
    ensures forall n :: Get(r, n) == LastValue(ActivePairs(probes), n)
  {
    ActiveNames(probes);
    FromPairs(ActivePairs(probes))
  }

  /** The names among the active pairs are those of the users with
      entries. */
  lemma ActiveNames(probes: seq<Probe>)
    ensures forall n :: n in Firsts(ActivePairs(probes)) <==>
      exists i :: 0 <= i < |probes| && probes[i].user.name == n && |probes[i].entries| > 0
  {
    var pairs := ActivePairs(probes);
    forall n ensures n in Firsts(pairs) <==>
      exists i :: 0 <= i < |probes| && probes[i].user.name == n && |probes[i].entries| > 0
    {
      if n in Firsts(pairs) {
        var j :| 0 <= j < |pairs| && Firsts(pairs)[j] == n;
        assert pairs[j] in pairs;
      }
      if exists i :: 0 <= i < |probes| && probes[i].user.name == n && |probes[i].entries| > 0 {
        var i :| 0 <= i < |probes| && probes[i].user.name == n && |probes[i].entries| > 0;
        var p := (probes[i].user.name, probes[i].user.id);
        assert p in pairs;
        var j :| 0 <= j < |pairs| && pairs[j] == p;
        assert Firsts(pairs)[j] == n;
      }
    }
  }

  /** The ids whose window had entries (`users_appeared`). */
  function Appeared(probes: seq<Probe>): (r: set<string>)
    ensures forall id :: id in r <==> exists i :: 0 <= i < |probes| && probes[i].user.id == id && |probes[i].entries| > 0
  {
    if |probes| == 0 then {}
    else
      var last := probes[|probes| - 1];
      assert forall i :: 0 <= i < |probes| - 1 ==> probes[..|probes| - 1][i] == probes[i];
      Appeared(probes[..|probes| - 1]) + (if |last.entries| > 0 then {last.user.id} else {})
  }

  /** Reference value: the name of the last probe carrying `id`. */
  function LastNameOf(probes: seq<Probe>, id: string): Option<string> {
    if |probes| == 0 then None
    else if probes[|probes| - 1].user.id == id then Some(probes[|probes| - 1].user.name)
    else LastNameOf(probes[..|probes| - 1], id)
  }

  /** The second loop of `get_users_exclusion`. */
  function ExcludeLoop(probes: seq<Probe>, appeared: set<string>): (r: map<string, string>)
    ensures forall id :: id in r <==> id !in appeared && LastNameOf(probes, id).Some?
    ensures forall id :: id in r ==> Some(r[id]) == LastNameOf(probes, id)
  {
    if |probes| == 0 then map[]
    else
      var last := probes[|probes| - 1];
      var prefix := ExcludeLoop(probes[..|probes| - 1], appeared);
      if last.user.id !in appeared then prefix[last.user.id := last.user.name] else prefix
  }

  /** `get_users_exclusion` (sheetify, excelify): id -> name for every user
      none of whose probes returned entries; a repeated id takes the name
      of its last occurrence. */
  function UsersExclusion(probes: seq<Probe>): (r: map<string, string>)
    ensures forall id :: id in r <==>
      (exists i :: 0 <= i < |probes| && probes[i].user.id == id)
      && !(exists i :: 0 <= i < |probes| && probes[i].user.id == id && |probes[i].entries| > 0)
    ensures forall id :: id in r ==> Some(r[id]) == LastNameOf(probes, id)
  {
    var r := ExcludeLoop(probes, Appeared(probes));
    forall id ensures LastNameOf(probes, id).Some? <==> exists i :: 0 <= i < |probes| && probes[i].user.id == id {
      LastNameOfSome(probes, id);
    }
    r
  }

  lemma {:induction false} LastNameOfSome(probes: seq<Probe>, id: string)
    ensures LastNameOf(probes, id).Some? <==> exists i :: 0 <= i < |probes| && probes[i].user.id == id
  {
    if |probes| > 0 {
      var prefix := probes[..|probes| - 1];
      LastNameOfSome(prefix, id);
      if exists i :: 0 <= i < |probes| && probes[i].user.id == id {
        var i :| 0 <= i < |probes| && probes[i].user.id == id;
        if i < |probes| - 1 {
          assert prefix[i] == probes[i];
        }
      }
      if exists i :: 0 <= i < |prefix| && prefix[i].user.id == id {
        var i :| 0 <= i < |prefix| && prefix[i].user.id == id;
        assert probes[i] == prefix[i];
      }
    }
  }

  /** The (name, id) pairs of the users not excluded. */
  function KeptPairs(users: seq<User>, exclusion: map<string, string>): (r: seq<(string, string)>)
    ensures forall p :: p in r <==> exists i :: 0 <= i < |users| && users[i].id !in exclusion
                                               && p == (users[i].name, users[i].id)
  {
    if |users| == 0 then []
    else
      var last := users[|users| - 1];
      assert forall i :: 0 <= i < |users| - 1 ==> users[..|users| - 1][i] == users[i];
      KeptPairs(users[..|users| - 1], exclusion) + (if last.id !in exclusion then [(last.name, last.id)] else [])
  }

  /** excelify's `users_in_work`: the comprehension over `all_users`
      that drops the excluded ids. */
  function ExcelifyUsersInWork(users: seq<User>, exclusion: map<string, string>): (r: OrderedDict)
    ensures DistinctKeys(r)
    ensures Keys(r) == Dedup(Firsts(KeptPairs(users, exclusion)))
    ensures forall n :: Get(r, n) == LastValue(KeptPairs(users, exclusion), n)
  {
    FromPairs(KeptPairs(users, exclusion))
  }

  function AllPairs(users: seq<User>): (r: seq<(string, string)>)
    ensures |r| == |users|
    ensures forall i :: 0 <= i < |users| ==> r[i] == (users[i].name, users[i].id)
  {
    seq(|users|, i requires 0 <= i < |users| => (users[i].name, users[i].id))
  }

  /** sheetify's `found_users`: every user of the project, name -> id. */
  function FoundUsers(users: seq<User>): (r: OrderedDict)
    ensures DistinctKeys(r)
    ensures forall n :: n in Keys(r) <==> exists i :: 0 <= i < |users| && users[i].name == n
    ensures forall n :: Get(r, n) == LastValue(AllPairs(users), n)
  {
    var r := FromPairs(AllPairs(users));
    forall n ensures n in Keys(r) <==> exists i :: 0 <= i < |users| && users[i].name == n {
      if n in Keys(r) {
        assert n in Firsts(AllPairs(users));
        var i :| 0 <= i < |users| && Firsts(AllPairs(users))[i] == n;
      }
      if exists i :: 0 <= i < |users| && users[i].name == n {
        var i :| 0 <= i < |users| && users[i].name == n;
        assert Firsts(AllPairs(users))[i] == n;
      }
    }
    r
  }

  /** Probing each user once, the excelify route (exclude, then keep the
      rest) and `get_users_in_work` pick the same names with the same ids
      in the same order. */
  lemma ExclusionAgreesWithInWork(users: seq<User>, probes: seq<Probe>)
    requires |probes| == |users|
    requires forall i :: 0 <= i < |users| ==> probes[i].user == users[i]
    requires forall i, j :: 0 <= i < |users| && 0 <= j < |users| && users[i].id == users[j].id
               ==> (|probes[i].entries| > 0 <==> |probes[j].entries| > 0)
    ensures ExcelifyUsersInWork(users, UsersExclusion(probes)) == UsersInWork(probes)
  {
    KeptEqualsActive(users, probes, UsersExclusion(probes));
  }

  lemma {:induction false} KeptEqualsActive(users: seq<User>, probes: seq<Probe>, exclusion: map<string, string>)
    requires |probes| == |users|
    requires forall i :: 0 <= i < |users| ==> probes[i].user == users[i]
    requires forall i :: 0 <= i < |users| ==> (users[i].id !in exclusion <==> |probes[i].entries| > 0)
    ensures KeptPairs(users, exclusion) == ActivePairs(probes)
  {
    if |users| > 0 {
      var n := |users| - 1;
      KeptEqualsActive(users[..n], probes[..n], exclusion);
    }
  }

  /** `initialize_project_data`: the first project whose name is exactly
      `name`, or the "does not exist" error. */
  function InitializeProjectData(projects: seq<Project>, name: string): (r: Result<Project, string>)
    ensures r.Success? <==> exists i :: 0 <= i < |projects| && projects[i].name == name
    ensures r.Success? ==> r.value.name == name
    ensures r.Success? ==>
      exists i :: 0 <= i < |projects| && projects[i] == r.value && (forall j :: 0 <= j < i ==> projects[j].name != name)
    ensures r.Failure? ==> r.error == "Project \"" + name + "\" does not exist in the workspace."
  {
    if |projects| == 0 then Failure("Project \"" + name + "\" does not exist in the workspace.")
    else if projects[0].name == name then Success(projects[0])
    else
      var rest := InitializeProjectData(projects[1..], name);
      if rest.Success? then
        var i :| 0 <= i < |projects[1..]| && projects[1..][i] == rest.value
                 && forall j :: 0 <= j < i ==> projects[1..][j].name != name;
        assert projects[i + 1] == rest.value;
        rest
      else rest
  }
}
