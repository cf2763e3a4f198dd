/** Publishing beads to GitHub Issues and reading them back: scripts/publish-beads.ts. */
module Publication {
  import opened Ordering
  import opened PublicationScopes

  // ---------- bead ids and markers ----------

  predicate LowerAlphaNumeric(c: char) { 'a' <= c <= 'z' || '0' <= c <= '9' }

  predicate Digit(c: char) { '0' <= c <= '9' }

  /** The length of the longest prefix whose characters all satisfy `accepts`. */
  function RunLength(s: string, accepts: char -> bool): (n: nat)
    ensures n <= |s| && forall i | 0 <= i < n :: accepts(s[i])
  {
    if s == [] || !accepts(s[0]) then 0 else 1 + RunLength(s[1..], accepts)
  }

  /** Any number of groups of a dot and one or more digits. */
  predicate DottedNumbers(s: string)
    decreases |s|
  {
    s == [] || (s[0] == '.' &&
                var n := RunLength(s[1..], Digit); n > 0 && DottedNumbers(s[1 + n..]))
  }

  const ID_PREFIX := "ps-"

  predicate BeadId(id: string) {
    && ID_PREFIX <= id
    && var n := RunLength(id[|ID_PREFIX|..], LowerAlphaNumeric);
    n > 0 && DottedNumbers(id[|ID_PREFIX| + n..])
  }

  // What the pattern of a bead id says: a word of small letters and digits, and dotted numbers after it.

  ghost predicate Word(s: string) {
    s != "" && forall i | 0 <= i < |s| :: 'a' <= s[i] <= 'z' || '0' <= s[i] <= '9'
  }

  ghost predicate Number(s: string) {
    s != "" && forall i | 0 <= i < |s| :: '0' <= s[i] <= '9'
  }

  ghost function Dotted(numbers: seq<string>): string {
    if numbers == [] then "" else "." + numbers[0] + Dotted(numbers[1..])
  }

  ghost predicate Numbers(numbers: seq<string>) {
    forall i | 0 <= i < |numbers| :: Number(numbers[i])
  }

  /** A run ends where the accepted characters end. */
  lemma {:induction false} RunEnds(s: string, accepts: char -> bool, n: nat)
    requires n <= |s| && (forall i | 0 <= i < n :: accepts(s[i])) && (n == |s| || !accepts(s[n]))
    ensures RunLength(s, accepts) == n
  {
    if n > 0 { RunEnds(s[1..], accepts, n - 1); }
  }

  lemma {:induction false} RunStops(s: string, accepts: char -> bool)
    ensures var n := RunLength(s, accepts); n == |s| || !accepts(s[n])
  {
    if s != [] && accepts(s[0]) { RunStops(s[1..], accepts); }
  }

  lemma NumberStep(number: string, rest: string)
    requires Number(number) && DottedNumbers(rest)
    ensures DottedNumbers("." + number + rest)
  {
    var s := "." + number + rest;
    assert forall i | 0 <= i < |number| :: s[1..][i] == number[i];
    assert rest != "" ==> s[1..][|number|] == '.';
    RunEnds(s[1..], Digit, |number|);
    assert s[1 + |number|..] == rest;
  }

  lemma {:induction false} DottedIsDotted(numbers: seq<string>)
    requires Numbers(numbers)
    ensures DottedNumbers(Dotted(numbers))
  {
    if numbers != [] {
      DottedIsDotted(numbers[1..]);
      NumberStep(numbers[0], Dotted(numbers[1..]));
    }
  }

  lemma {:induction false} NumbersOf(s: string) returns (numbers: seq<string>)
    requires DottedNumbers(s)
    ensures Numbers(numbers) && Dotted(numbers) == s
    decreases |s|
  {
    if s == "" {
      numbers := [];
    } else {
      var n := RunLength(s[1..], Digit);
      var rest := NumbersOf(s[1 + n..]);
      numbers := [s[1..][..n]] + rest;
      assert numbers[1..] == rest;
      assert s == "." + s[1..][..n] + s[1 + n..];
    }
  }

  lemma WordEnds(word: string, rest: string)
    requires Word(word) && (rest == "" || rest[0] == '.')
    ensures RunLength(word + rest, LowerAlphaNumeric) == |word|
  {
    assert forall i | 0 <= i < |word| :: (word + rest)[i] == word[i];
    RunEnds(word + rest, LowerAlphaNumeric, |word|);
  }

  lemma PatternIsBeadId(word: string, numbers: seq<string>)
    requires Word(word) && Numbers(numbers)
    ensures BeadId("ps-" + word + Dotted(numbers))
  {
    var rest := Dotted(numbers);
    var id := "ps-" + word + rest;
    assert id[3..] == word + rest;
    WordEnds(word, rest);
    DottedIsDotted(numbers);
    assert id[3 + |word|..] == rest;
  }

  lemma PatternOfBeadId(id: string) returns (word: string, numbers: seq<string>)
    requires BeadId(id)
    ensures Word(word) && Numbers(numbers) && id == "ps-" + word + Dotted(numbers)
  {
    var body := id[3..];
    word := body[..RunLength(body, LowerAlphaNumeric)];
    numbers := NumbersOf(body[|word|..]);
    assert id == "ps-" + word + body[|word|..];
  }

  /** The bead ids are exactly the texts of that pattern. */
  lemma BeadIdPattern(id: string)
    ensures BeadId(id) <==>
              exists word, numbers :: Word(word) && Numbers(numbers) && id == "ps-" + word + Dotted(numbers)
  {
    if BeadId(id) { var word, numbers := PatternOfBeadId(id); }
    if word, numbers :| Word(word) && Numbers(numbers) && id == "ps-" + word + Dotted(numbers) {
      PatternIsBeadId(word, numbers);
    }
  }

  const MARKER_START := "<!-- pi-stuff:beads-delivery:"
  const MARKER_END := " -->"

  function Marker(id: string): string {
    MARKER_START + id + MARKER_END
  }

  lemma {:induction false} DottedNumbersHaveNoSpace(s: string)
    requires DottedNumbers(s)
    ensures ' ' !in s
    decreases |s|
  {
    if s != [] {
      var n := RunLength(s[1..], Digit);
      DottedNumbersHaveNoSpace(s[1 + n..]);
      assert s == [s[0]] + s[1..][..n] + s[1 + n..];
    }
  }

  lemma BeadIdHasNoSpace(id: string)
    requires BeadId(id)
    ensures ' ' !in id
  {
    var n := RunLength(id[|ID_PREFIX|..], LowerAlphaNumeric);
    DottedNumbersHaveNoSpace(id[|ID_PREFIX| + n..]);
    assert id == ID_PREFIX + id[|ID_PREFIX|..][..n] + id[|ID_PREFIX| + n..];
  }

  lemma MarkedCharacters(id: string, body: string)
    requires Marker(id) <= body
    ensures body[|MARKER_START|..][..|id|] == id && body[|MARKER_START| + |id|] == ' '
  {
    assert Marker(id) == body[..|Marker(id)|];
    assert Marker(id)[|MARKER_START|..][..|id|] == id;
    assert Marker(id)[|MARKER_START| + |id|] == MARKER_END[0];
    assert body[|MARKER_START|..][..|id|] == Marker(id)[|MARKER_START|..][..|id|];
  }

  lemma LongerMarkerHasSpace(a: string, b: string, body: string)
    requires |a| <= |b| && Marker(a) <= body && Marker(b) <= body
    ensures a == b || ' ' in b
  {
    MarkedCharacters(a, body);
    MarkedCharacters(b, body);
    assert |a| < |b| ==> body[|MARKER_START|..][..|b|][|a|] == ' ';
  }

  /** No comment starts with the markers of two beads. */
  lemma MarkersArePrefixFree(a: string, b: string, body: string)
    requires BeadId(a) && BeadId(b) && Marker(a) <= body && Marker(b) <= body
    ensures a == b
  {
    BeadIdHasNoSpace(a);
    BeadIdHasNoSpace(b);
    if |a| <= |b| { LongerMarkerHasSpace(a, b, body); } else { LongerMarkerHasSpace(b, a, body); }
  }

  // ---------- the issue tracker ----------

  datatype Comment = Comment(issue: nat, body: string, login: string)

  datatype Issue = Issue(closed: bool, title: string)

  /** Comments by their id, issues by their number; `next` is the id of the next comment. */
  datatype Store = Store(comments: map<nat, Comment>, issues: map<nat, Issue>, next: nat)
  {
    ghost predicate Valid() {
      forall k | k in comments :: k < next
    }

    function OnIssue(number: nat): map<nat, Comment> {
      map k | k in comments && comments[k].issue == number :: comments[k]
    }
  }

  /** What becomes of one call: it works, it reports success without effect, or it fails with or without effect. */
  datatype Fate = Works | Lost | Fails(applied: bool)

  /** A request to change the store. */
  datatype Mutation =
    | PostComment(number: nat, body: string)
    | EditComment(id: nat, body: string)
    | EditIssue(number: nat, issue: Issue)

  /** `sent` lists the mutations requested so far, whatever became of them. */
  class Tracker {
    var store: Store
    var calls: nat
    var sent: seq<Mutation>
    const account: string
    const fate: nat -> Fate

    constructor (store: Store, account: string, fate: nat -> Fate)
      requires store.Valid()
      ensures this.store == store && calls == 0 && sent == [] && this.account == account && this.fate == fate
    {
      this.store, calls, sent, this.account, this.fate := store, 0, [], account, fate;
    }

    ghost predicate Reliable()
      reads this
    {
      forall n: nat | n >= calls :: fate(n) == Works
    }

    method ReadComments(number: nat) returns (r: Option<map<nat, Comment>>)
      modifies this`calls
      ensures calls == old(calls) + 1
      ensures r.Some? ==> number in store.issues && r.value == store.OnIssue(number)
      ensures old(Reliable()) && number in store.issues ==> r.Some?
    {
      var now := fate(calls);
      calls := calls + 1;
      r := if now.Fails? || number !in store.issues then None else Some(store.OnIssue(number));
    }

    method ReadIssue(number: nat) returns (r: Option<Issue>)
      modifies this`calls
      ensures calls == old(calls) + 1
      ensures r.Some? ==> number in store.issues && r.value == store.issues[number]
      ensures old(Reliable()) && number in store.issues ==> r.Some?
    {
      var now := fate(calls);
      calls := calls + 1;
      r := if now.Fails? || number !in store.issues then None else Some(store.issues[number]);
    }

    method Post(number: nat, body: string) returns (ok: bool)
      requires store.Valid() && number in store.issues
      modifies this
      ensures calls == old(calls) + 1 && store.Valid() && sent == old(sent) + [PostComment(number, body)]
      ensures store == old(store) || store == Posted(old(store), number, body, account)
      ensures old(Reliable()) ==> ok && store == Posted(old(store), number, body, account)
    {
      var now := fate(calls);
      calls := calls + 1;
      sent := sent + [PostComment(number, body)];
      ok := !now.Fails?;
      if now == Works || now == Fails(true) {
        store := Posted(store, number, body, account);
      }
    }

    method PatchComment(id: nat, body: string) returns (ok: bool)
      requires store.Valid() && id in store.comments
      modifies this
      ensures calls == old(calls) + 1 && store.Valid() && sent == old(sent) + [EditComment(id, body)]
      ensures store == old(store) || store == Patched(old(store), id, body)
      ensures old(Reliable()) ==> ok && store == Patched(old(store), id, body)
    {
      var now := fate(calls);
      calls := calls + 1;
      sent := sent + [EditComment(id, body)];
      ok := !now.Fails?;
      if now == Works || now == Fails(true) {
        store := Patched(store, id, body);
      }
    }

    method PatchIssue(number: nat, issue: Issue) returns (ok: bool)
      requires store.Valid() && number in store.issues
      modifies this
      ensures calls == old(calls) + 1 && store.Valid() && sent == old(sent) + [EditIssue(number, issue)]
      ensures store == old(store) || store == Retitled(old(store), number, issue)
      ensures old(Reliable()) ==> ok && store == Retitled(old(store), number, issue)
    {
      var now := fate(calls);
      calls := calls + 1;
      sent := sent + [EditIssue(number, issue)];
      ok := !now.Fails?;
      if now == Works || now == Fails(true) {
        store := Retitled(store, number, issue);
      }
    }
  }

  function Posted(s: Store, number: nat, body: string, login: string): Store {
    Store(s.comments[s.next := Comment(number, body, login)], s.issues, s.next + 1)
  }

  function Patched(s: Store, id: nat, body: string): Store
    requires id in s.comments
  {
    s.(comments := s.comments[id := s.comments[id].(body := body)])
  }

  function Retitled(s: Store, number: nat, issue: Issue): Store {
    s.(issues := s.issues[number := issue])
  }

  // ---------- what a publication promises ----------

  /** One bead to publish: its id, its issue number, the state and title wanted there, and the comment body. */
  datatype Plan = Plan(id: string, number: nat, issue: Issue, body: string)
  {
    predicate Marked() { BeadId(id) && Marker(id) <= body }
  }

  function Managed(s: Store, p: Plan): set<nat> {
    set k | k in s.comments && s.comments[k].issue == p.number && Marker(p.id) <= s.comments[k].body
  }

  ghost predicate CommentConverged(s: Store, p: Plan, login: string) {
    exists k :: Managed(s, p) == {k} && s.comments[k] == Comment(p.number, p.body, login)
  }

  /** Exactly one comment of the bead, with the wanted body and author, and the wanted state and title. */
  ghost predicate Converged(s: Store, p: Plan, login: string) {
    && p.number in s.issues && s.issues[p.number] == p.issue
    && CommentConverged(s, p, login)
  }

  /** From `s` to `t` nothing changed but comments of `p` and the state and title of its issue. */
  ghost predicate TouchesOnly(s: Store, t: Store, p: Plan) {
    && (forall k | k in s.comments && k !in Managed(s, p) :: k in t.comments && t.comments[k] == s.comments[k])
    && (forall k | k in t.comments && k !in s.comments :: k in Managed(t, p))
    && Managed(s, p) <= Managed(t, p)
    && (forall k | k in Managed(s, p) :: t.comments[k].login == s.comments[k].login)
    && t.issues.Keys == s.issues.Keys
    && (forall n | n in s.issues && n != p.number :: t.issues[n] == s.issues[n])
  }

  /** No duplicate was made: a comment is only added where there was none. */
  ghost predicate NoDuplicate(s: Store, t: Store, p: Plan) {
    || Managed(t, p) == Managed(s, p)
    || (Managed(s, p) == {} && exists k :: Managed(t, p) == {k})
  }

  /** A reliable tracker can bring the store into the wanted state. */
  ghost predicate Publishable(s: Store, p: Plan, account: string, login: string) {
    && p.number in s.issues
    && (Managed(s, p) == {} ==> account == login)
    && (Managed(s, p) != {} ==> exists k :: Managed(s, p) == {k} && s.comments[k].login == login)
  }

  /** At most one comment is managed, and by the publishing login. */
  ghost predicate Writable(s: Store, p: Plan, login: string) {
    Managed(s, p) == {} || exists k :: Managed(s, p) == {k} && s.comments[k].login == login
  }

  /** The mutation the comment of `p` needs: a post where there is none, an edit where its own, the only one, differs. */
  ghost predicate NeededByComment(s: Store, p: Plan, login: string, m: Mutation) {
    match m
    case PostComment(number, body) => Managed(s, p) == {} && number == p.number && body == p.body
    case EditComment(id, body) =>
      && Managed(s, p) == {id} && s.comments[id].login == login && s.comments[id].body != p.body && body == p.body
    case EditIssue(_, _) => false
  }

  /** The mutation the issue of `p` needs: its state and title, where they differ. */
  ghost predicate NeededByIssue(s: Store, p: Plan, m: Mutation) {
    p.number in s.issues && s.issues[p.number] != p.issue && m == EditIssue(p.number, p.issue)
  }

  datatype Fault = CallFailed | Ambiguous | CommentReadback | IssueReadback

  function ManagedOf(comments: map<nat, Comment>, p: Plan): set<nat> {
    set k | k in comments && Marker(p.id) <= comments[k].body
  }

  lemma ManagedOnIssue(s: Store, p: Plan)
    ensures ManagedOf(s.OnIssue(p.number), p) == Managed(s, p)
  {
  }

  lemma PostedStep(s: Store, p: Plan, login: string)
    requires s.Valid() && p.Marked() && Managed(s, p) == {}
    ensures
      var t := Posted(s, p.number, p.body, login);
      && TouchesOnly(s, t, p) && Managed(t, p) == {s.next}
      && t.comments[s.next] == Comment(p.number, p.body, login)
  {
  }

  lemma PatchedStep(s: Store, p: Plan, k: nat)
    requires s.Valid() && p.Marked() && Managed(s, p) == {k}
    ensures
      var t := Patched(s, k, p.body);
      && TouchesOnly(s, t, p) && Managed(t, p) == {k}
      && t.comments[k] == Comment(p.number, p.body, s.comments[k].login)
  {
    assert k in Managed(s, p);
    var t := Patched(s, k, p.body);
    assert k in Managed(t, p);
    forall other | other in Managed(t, p) && other != k
      ensures other in Managed(s, p)
    {
    }
  }

  lemma SingletonOf(s: set<nat>) returns (k: nat)
    requires |s| == 1
    ensures s == {k}
  {
    k :| k in s;
    assert |s - {k}| == 0;
  }

  lemma SingletonSize(s: set<nat>)
    ensures (exists k :: s == {k}) ==> |s| == 1
  {
  }

  method ReadBack(hub: Tracker, p: Plan, login: string) returns (r: Result<nat, Fault>)
    requires hub.store.Valid() && p.Marked()
    modifies hub`calls
    ensures hub.calls == old(hub.calls) + 1
    ensures r.Ok? ==> Managed(hub.store, p) == {r.value}
    ensures r.Ok? ==> hub.store.comments[r.value] == Comment(p.number, p.body, login)
    ensures r.Ok? ==> p.number in hub.store.issues
    ensures old(hub.Reliable()) ==> (r.Ok? <==> p.number in hub.store.issues && CommentConverged(hub.store, p, login))
  {
    ManagedOnIssue(hub.store, p);
    var comments := hub.ReadComments(p.number);
    if comments == None {
      return Err(CallFailed);
    }
    var final := ManagedOf(comments.value, p);
    SingletonSize(final);
    if |final| != 1 {
      return Err(CommentReadback);
    }
    var k :| k in final;
    assert final == {k} by { ghost var only := SingletonOf(final); }
    if comments.value[k].body != p.body || comments.value[k].login != login {
      return Err(CommentReadback);
    }
    r := Ok(k);
  }

  /** Posts the comment where there is none, edits it where it differs. */
  method WriteComment(hub: Tracker, p: Plan, login: string, comments: map<nat, Comment>)
    returns (problem: Option<Fault>)
    requires hub.store.Valid() && p.Marked() && p.number in hub.store.issues && comments == hub.store.OnIssue(p.number)
    modifies hub
    ensures hub.store.Valid() && hub.calls >= old(hub.calls)
    ensures hub.store.issues == old(hub.store.issues)
    ensures TouchesOnly(old(hub.store), hub.store, p) && NoDuplicate(old(hub.store), hub.store, p)
    ensures old(CommentConverged(hub.store, p, login)) ==>
              problem.None? && hub.store == old(hub.store) && hub.sent == old(hub.sent)
    ensures hub.sent == old(hub.sent) ||
            exists m :: hub.sent == old(hub.sent) + [m] && NeededByComment(old(hub.store), p, login, m)
    ensures problem.None? && hub.sent == old(hub.sent) ==> old(CommentConverged(hub.store, p, login))
    ensures old(Publishable(hub.store, p, hub.account, login)) ==> Publishable(hub.store, p, hub.account, login)
    ensures old(hub.Reliable()) ==> (problem.None? <==> old(Writable(hub.store, p, login)))
    ensures old(hub.Reliable()) && problem.None? ==>
              (CommentConverged(hub.store, p, login) <==> old(Publishable(hub.store, p, hub.account, login)))
  {
    ManagedOnIssue(hub.store, p);
    var previous := ManagedOf(comments, p);
    SingletonSize(previous);
    if |previous| > 1 || exists k | k in previous :: comments[k].login != login {
      return Some(Ambiguous);
    }
    problem := None;
    if previous == {} {
      PostedStep(hub.store, p, hub.account);
      var ok := hub.Post(p.number, p.body);
      problem := if ok then None else Some(CallFailed);
    } else {
      var existing :| existing in previous;
      assert previous == {existing} by { ghost var k := SingletonOf(previous); }
      if comments[existing].body != p.body {
        PatchedStep(hub.store, p, existing);
        var ok := hub.PatchComment(existing, p.body);
        problem := if ok then None else Some(CallFailed);
      }
    }
  }

  /** Writes the comment of one bead and reads it back. */
  method PublishManagedComment(hub: Tracker, p: Plan, login: string) returns (r: Result<nat, Fault>)
    requires hub.store.Valid() && p.Marked()
    modifies hub
    ensures hub.store.Valid() && hub.calls > old(hub.calls)
    ensures hub.store.issues == old(hub.store.issues)
    ensures TouchesOnly(old(hub.store), hub.store, p) && NoDuplicate(old(hub.store), hub.store, p)
    ensures r.Ok? ==> Managed(hub.store, p) == {r.value}
    ensures r.Ok? ==> hub.store.comments[r.value] == Comment(p.number, p.body, login)
    ensures r.Ok? ==> p.number in hub.store.issues
    ensures old(CommentConverged(hub.store, p, login)) ==> hub.store == old(hub.store) && hub.sent == old(hub.sent)
    ensures hub.sent == old(hub.sent) ||
            exists m :: hub.sent == old(hub.sent) + [m] && NeededByComment(old(hub.store), p, login, m)
    ensures r.Ok? ==> (hub.sent == old(hub.sent) <==> old(CommentConverged(hub.store, p, login)))
    ensures old(Publishable(hub.store, p, hub.account, login)) ==> Publishable(hub.store, p, hub.account, login)
    ensures old(hub.Reliable()) ==> (r.Ok? <==> old(Publishable(hub.store, p, hub.account, login)))
  {
    var comments := hub.ReadComments(p.number);
    if comments == None {
      return Err(CallFailed);
    }
    var problem := WriteComment(hub, p, login, comments.value);
    if problem.Some? {
      return Err(problem.value);
    }
    r := ReadBack(hub, p, login);
  }

  /** Sets the state and title of the issue where they differ, and reads them back. */
  method PublishIssueState(hub: Tracker, p: Plan) returns (r: Option<Fault>)
    requires hub.store.Valid()
    modifies hub
    ensures hub.store.Valid() && hub.calls > old(hub.calls)
    ensures p.number in old(hub.store.issues) || hub.store == old(hub.store)
    ensures hub.store == old(hub.store) || hub.store == Retitled(old(hub.store), p.number, p.issue)
    ensures r.None? ==> p.number in old(hub.store.issues) && p.number in hub.store.issues
    ensures r.None? ==> hub.store.issues[p.number] == p.issue
    ensures p.number in old(hub.store.issues) && old(hub.store.issues)[p.number] == p.issue ==>
              hub.store == old(hub.store) && hub.sent == old(hub.sent)
    ensures hub.sent == old(hub.sent) ||
            exists m :: hub.sent == old(hub.sent) + [m] && NeededByIssue(old(hub.store), p, m)
    ensures r.None? ==> (hub.sent == old(hub.sent) <==> old(hub.store.issues)[p.number] == p.issue)
    ensures old(hub.Reliable()) ==> (r.None? <==> p.number in old(hub.store.issues))
  {
    var issue := hub.ReadIssue(p.number);
    if issue == None {
      return Some(CallFailed);
    }
    if issue.value != p.issue {
      var ok := hub.PatchIssue(p.number, p.issue);
      if !ok {
        return Some(CallFailed);
      }
    }
    var verified := hub.ReadIssue(p.number);
    r := if verified == None then Some(CallFailed)
         else if verified.value != p.issue then Some(IssueReadback)
         else None;
  }

  /** At most two mutations, the comment's before the issue's, and each only if the store at the start needed it. */
  ghost predicate SentInOrder(s: Store, p: Plan, login: string, before: seq<Mutation>, after: seq<Mutation>) {
    || after == before
    || (exists m :: after == before + [m] && (NeededByComment(s, p, login, m) || NeededByIssue(s, p, m)))
    || (exists m, n :: after == before + [m, n] && NeededByComment(s, p, login, m) && NeededByIssue(s, p, n))
  }

  lemma SentBoth(s: Store, t: Store, p: Plan, login: string, before: seq<Mutation>, between: seq<Mutation>,
                 after: seq<Mutation>)
    requires t.issues == s.issues
    requires between == before || exists m :: between == before + [m] && NeededByComment(s, p, login, m)
    requires after == between || exists m :: after == between + [m] && NeededByIssue(t, p, m)
    ensures SentInOrder(s, p, login, before, after)
  {
    if between != before && after != between {
      var m :| between == before + [m] && NeededByComment(s, p, login, m);
      var n :| after == between + [n] && NeededByIssue(t, p, n);
      assert after == before + [m, n];
    }
  }

  /** Publishes the comment, then the issue's state; the issue is left alone until the comment reads back as wanted. */
  method PublishComment(hub: Tracker, p: Plan, login: string) returns (r: Result<nat, Fault>)
    requires hub.store.Valid() && p.Marked()
    modifies hub
    ensures hub.store.Valid() && hub.calls > old(hub.calls)
    ensures TouchesOnly(old(hub.store), hub.store, p) && NoDuplicate(old(hub.store), hub.store, p)
    ensures r.Ok? ==> Converged(hub.store, p, login) && Managed(hub.store, p) == {r.value}
    ensures old(Converged(hub.store, p, login)) ==> hub.store == old(hub.store) && hub.sent == old(hub.sent)
    ensures r.Ok? ==> (hub.sent == old(hub.sent) <==> old(Converged(hub.store, p, login)))
    ensures SentInOrder(old(hub.store), p, login, old(hub.sent), hub.sent)
    ensures hub.store.issues != old(hub.store.issues) ==> CommentConverged(hub.store, p, login)
    ensures old(Publishable(hub.store, p, hub.account, login)) ==> Publishable(hub.store, p, hub.account, login)
    ensures old(hub.Reliable()) ==> (r.Ok? <==> old(Publishable(hub.store, p, hub.account, login)))
  {
    r := PublishManagedComment(hub, p, login);
    if r.Err? {
      return;
    }
    ghost var between, sent := hub.store, hub.sent;
    var problem := PublishIssueState(hub, p);
    SentBoth(old(hub.store), between, p, login, old(hub.sent), sent, hub.sent);
    if problem.Some? {
      r := Err(problem.value);
    }
  }

  // ---------- a whole publication ----------

  /** The comments of `q` are the same in both stores. */
  ghost predicate Kept(s: Store, t: Store, q: Plan) {
    && Managed(t, q) == Managed(s, q)
    && forall k | k in Managed(s, q) :: t.comments[k] == s.comments[k]
  }

  lemma OtherBeadKept(s: Store, t: Store, p: Plan, q: Plan)
    requires TouchesOnly(s, t, p) && BeadId(p.id) && BeadId(q.id) && p.id != q.id
    ensures Kept(s, t, q)
  {
    forall k | k in Managed(s, q)
      ensures k in t.comments && t.comments[k] == s.comments[k]
    {
      NotBoth(s, p, q, k);
    }
    forall k | k in Managed(t, q)
      ensures k in s.comments && t.comments[k] == s.comments[k]
    {
      NotBoth(t, p, q, k);
    }
  }

  lemma NotBoth(s: Store, p: Plan, q: Plan, k: nat)
    requires BeadId(p.id) && BeadId(q.id) && p.id != q.id
    ensures !(k in Managed(s, p) && k in Managed(s, q))
  {
    if k in Managed(s, p) && k in Managed(s, q) {
      MarkersArePrefixFree(p.id, q.id, s.comments[k].body);
    }
  }

  predicate DistinctIds(plans: seq<Plan>) {
    forall i, j | 0 <= i < j < |plans| :: plans[i].id != plans[j].id
  }

  ghost predicate AllMarked(plans: seq<Plan>) {
    forall p | p in plans :: p.Marked()
  }

  ghost predicate AllConverged(s: Store, plans: seq<Plan>, login: string) {
    forall p | p in plans :: Converged(s, p, login)
  }

  /** Beads that share an issue ask for the same state and title. */
  predicate Agreeing(plans: seq<Plan>) {
    forall p, q | p in plans && q in plans && p.number == q.number :: p.issue == q.issue
  }

  /** Two beads whose external references name one issue never both read back as wanted, whatever the store. */
  lemma SharedIssueCannotConverge(s: Store, login: string)
    ensures
      var plans := [Plan("ps-a", 1, Issue(false, "A"), Marker("ps-a")),
                    Plan("ps-b", 1, Issue(false, "B"), Marker("ps-b"))];
      AllMarked(plans) && DistinctIds(plans) && !AllConverged(s, plans, login)
  {
    var a, b := Plan("ps-a", 1, Issue(false, "A"), Marker("ps-a")), Plan("ps-b", 1, Issue(false, "B"), Marker("ps-b"));
    assert RunLength("ps-a"[|ID_PREFIX|..], LowerAlphaNumeric) == 1 && BeadId("ps-a");
    assert RunLength("ps-b"[|ID_PREFIX|..], LowerAlphaNumeric) == 1 && BeadId("ps-b");
    assert a.Marked() && b.Marked();
    assert a in [a, b] && b in [a, b];
    assert a.issue != b.issue;
  }

  /** Not a comment of any of the beads. */
  ghost predicate Foreign(s: Store, plans: seq<Plan>, k: nat) {
    forall p | p in plans :: k !in Managed(s, p)
  }

  /** From `s` to `t` nothing changed but the comments of the beads and the state and title of their issues. */
  ghost predicate TouchesOnlyPlans(s: Store, t: Store, plans: seq<Plan>) {
    && (forall k | k in s.comments && Foreign(s, plans, k) :: k in t.comments && t.comments[k] == s.comments[k])
    && (forall k | k in t.comments && Foreign(t, plans, k) :: k in s.comments)
    && t.issues.Keys == s.issues.Keys
    && (forall n | n in s.issues && (forall p | p in plans :: p.number != n) :: t.issues[n] == s.issues[n])
  }

  lemma TouchesOnlyPlansStep(s: Store, t: Store, u: Store, plans: seq<Plan>, p: Plan)
    requires TouchesOnlyPlans(s, t, plans) && p in plans && TouchesOnly(t, u, p)
    ensures TouchesOnlyPlans(s, u, plans)
  {
    forall k | k in s.comments && Foreign(s, plans, k)
      ensures k in u.comments && u.comments[k] == s.comments[k]
    {
      assert t.comments[k] == s.comments[k];
      assert k !in Managed(s, p);
    }
    forall k | k in u.comments && Foreign(u, plans, k)
      ensures k in s.comments
    {
      assert k !in Managed(u, p);
      assert k in t.comments && t.comments[k] == u.comments[k];
      assert Foreign(t, plans, k) by {
        forall q | q in plans
          ensures k !in Managed(t, q)
        {
          assert k !in Managed(u, q);
        }
      }
    }
  }

  /** After the first `done` beads. */
  ghost predicate Progress(s: Store, t: Store, plans: seq<Plan>, done: nat, login: string)
    requires done <= |plans|
  {
    TouchesOnlyPlans(s, t, plans) && BeadByBead(s, t, plans, done, login)
  }

  ghost predicate BeadByBead(s: Store, t: Store, plans: seq<Plan>, done: nat, login: string)
    requires done <= |plans|
  {
    && (forall j | 0 <= j < |plans| :: NoDuplicate(s, t, plans[j]))
    && (forall j | 0 <= j < done :: CommentConverged(t, plans[j], login))
    && (forall j | done <= j < |plans| :: Kept(s, t, plans[j]))
  }

  lemma KeptTwice(s: Store, t: Store, u: Store, q: Plan)
    requires Kept(t, u, q)
    ensures NoDuplicate(s, t, q) ==> NoDuplicate(s, u, q)
    ensures Kept(s, t, q) ==> Kept(s, u, q)
  {
  }

  lemma BeadsDiffer(plans: seq<Plan>, i: nat, j: nat)
    requires i < |plans| && j < |plans| && i != j && AllMarked(plans) && DistinctIds(plans)
    ensures BeadId(plans[i].id) && BeadId(plans[j].id) && plans[i].id != plans[j].id
  {
    assert plans[i] in plans && plans[j] in plans;
    assert plans[i].Marked() && plans[j].Marked();
  }

  /** Publishing bead `i` keeps what holds of another bead. */
  lemma OtherProgress(s: Store, t: Store, u: Store, plans: seq<Plan>, i: nat, j: nat)
    requires i < |plans| && j < |plans| && i != j && AllMarked(plans) && DistinctIds(plans)
    requires TouchesOnly(t, u, plans[i]) && NoDuplicate(s, t, plans[j])
    ensures NoDuplicate(s, u, plans[j])
    ensures Kept(t, u, plans[j]) && (Kept(s, t, plans[j]) ==> Kept(s, u, plans[j]))
  {
    BeadsDiffer(plans, i, j);
    OtherBeadKept(t, u, plans[i], plans[j]);
    KeptTwice(s, t, u, plans[j]);
  }

  lemma KeptConverged(t: Store, u: Store, q: Plan, login: string)
    requires Kept(t, u, q) && CommentConverged(t, q, login)
    ensures CommentConverged(u, q, login)
  {
  }

  lemma KeptThenWritten(s: Store, t: Store, u: Store, p: Plan)
    requires Kept(s, t, p) && NoDuplicate(t, u, p)
    ensures NoDuplicate(s, u, p)
  {
  }

  /** What publishing bead `i` leaves for bead `j`. */
  lemma ProgressFor(s: Store, t: Store, u: Store, plans: seq<Plan>, i: nat, j: nat, login: string)
    requires i < |plans| && j < |plans| && AllMarked(plans) && DistinctIds(plans)
    requires TouchesOnly(t, u, plans[i]) && NoDuplicate(t, u, plans[i])
    requires NoDuplicate(s, t, plans[j])
    requires if j < i then CommentConverged(t, plans[j], login) else Kept(s, t, plans[j])
    ensures NoDuplicate(s, u, plans[j])
    ensures j < i ==> CommentConverged(u, plans[j], login)
    ensures j > i ==> Kept(s, u, plans[j])
  {
    if j == i {
      KeptThenWritten(s, t, u, plans[i]);
    } else {
      OtherProgress(s, t, u, plans, i, j);
      if j < i { KeptConverged(t, u, plans[j], login); }
    }
  }

  lemma BeadByBeadStep(s: Store, t: Store, u: Store, plans: seq<Plan>, i: nat, login: string)
    requires i < |plans| && AllMarked(plans) && DistinctIds(plans) && BeadByBead(s, t, plans, i, login)
    requires TouchesOnly(t, u, plans[i]) && NoDuplicate(t, u, plans[i])
    ensures forall j | 0 <= j < |plans| :: NoDuplicate(s, u, plans[j])
    ensures CommentConverged(u, plans[i], login) ==> BeadByBead(s, u, plans, i + 1, login)
  {
    forall j | 0 <= j < |plans|
      ensures NoDuplicate(s, u, plans[j])
      ensures j < i ==> CommentConverged(u, plans[j], login)
      ensures j > i ==> Kept(s, u, plans[j])
    {
      ProgressFor(s, t, u, plans, i, j, login);
    }
  }

  lemma ProgressStep(s: Store, t: Store, u: Store, plans: seq<Plan>, i: nat, login: string)
    requires i < |plans| && AllMarked(plans) && DistinctIds(plans) && Progress(s, t, plans, i, login)
    requires TouchesOnly(t, u, plans[i]) && NoDuplicate(t, u, plans[i])
    ensures TouchesOnlyPlans(s, u, plans) && forall j | 0 <= j < |plans| :: NoDuplicate(s, u, plans[j])
    ensures CommentConverged(u, plans[i], login) ==> Progress(s, u, plans, i + 1, login)
  {
    TouchesOnlyPlansStep(s, t, u, plans, plans[i]);
    BeadByBeadStep(s, t, u, plans, i, login);
  }

  /** The issues of the first `done` beads read as those beads ask. */
  ghost predicate IssuesSet(t: Store, plans: seq<Plan>, done: nat)
    requires done <= |plans|
  {
    forall j | 0 <= j < done :: plans[j].number in t.issues && t.issues[plans[j].number] == plans[j].issue
  }

  lemma IssuesSetStep(t: Store, u: Store, plans: seq<Plan>, i: nat)
    requires i < |plans| && Agreeing(plans) && IssuesSet(t, plans, i) && TouchesOnly(t, u, plans[i])
    requires plans[i].number in u.issues && u.issues[plans[i].number] == plans[i].issue
    ensures IssuesSet(u, plans, i + 1)
  {
    forall j | 0 <= j < i + 1
      ensures plans[j].number in u.issues && u.issues[plans[j].number] == plans[j].issue
    {
      assert plans[j].number == plans[i].number ==> plans[j].issue == plans[i].issue;
    }
  }

  /** The comments of the first beads are the ones reported. */
  ghost predicate Reported(t: Store, plans: seq<Plan>, ids: seq<nat>) {
    |ids| <= |plans| && forall j | 0 <= j < |ids| :: Managed(t, plans[j]) == {ids[j]}
  }

  lemma ReportedStep(t: Store, u: Store, plans: seq<Plan>, ids: seq<nat>, id: nat)
    requires Reported(t, plans, ids) && |ids| < |plans| && AllMarked(plans) && DistinctIds(plans)
    requires TouchesOnly(t, u, plans[|ids|]) && Managed(u, plans[|ids|]) == {id}
    ensures Reported(u, plans, ids + [id])
  {
    forall j | 0 <= j < |ids|
      ensures Managed(u, plans[j]) == {ids[j]}
    {
      BeadsDiffer(plans, |ids|, j);
      OtherBeadKept(t, u, plans[|ids|], plans[j]);
    }
  }

  ghost predicate FirstPublishable(s: Store, plans: seq<Plan>, n: nat, account: string, login: string)
    requires n <= |plans|
  {
    forall j | 0 <= j < n :: Publishable(s, plans[j], account, login)
  }

  lemma KeptPublishable(s: Store, t: Store, q: Plan, account: string, login: string)
    requires Kept(s, t, q) && t.issues.Keys == s.issues.Keys
    ensures Publishable(s, q, account, login) <==> Publishable(t, q, account, login)
  {
  }

  lemma NotFirstPublishable(s: Store, plans: seq<Plan>, i: nat, account: string, login: string)
    requires i < |plans| && !FirstPublishable(s, plans, i + 1, account, login)
    ensures !FirstPublishable(s, plans, |plans|, account, login)
  {
  }

  lemma AllDone(t: Store, plans: seq<Plan>, login: string)
    requires forall j | 0 <= j < |plans| :: CommentConverged(t, plans[j], login)
    requires Agreeing(plans) ==> IssuesSet(t, plans, |plans|)
    ensures AllConverged(t, plans, login) <==> Agreeing(plans)
  {
    if Agreeing(plans) {
      forall p | p in plans
        ensures Converged(t, p, login)
      {
        var j :| 0 <= j < |plans| && plans[j] == p;
      }
    }
  }

  lemma NextPublishable(s: Store, t: Store, plans: seq<Plan>, i: nat, account: string, login: string)
    requires i < |plans| && Progress(s, t, plans, i, login)
    ensures Publishable(s, plans[i], account, login) <==> Publishable(t, plans[i], account, login)
  {
    KeptPublishable(s, t, plans[i], account, login);
  }

  /** A bead that can be published stays so while bead `i` is published. */
  lemma StillPublishable(t: Store, u: Store, plans: seq<Plan>, i: nat, account: string, login: string)
    requires i < |plans| && AllMarked(plans) && DistinctIds(plans) && TouchesOnly(t, u, plans[i])
    requires FirstPublishable(t, plans, |plans|, account, login) && Publishable(u, plans[i], account, login)
    ensures FirstPublishable(u, plans, |plans|, account, login)
  {
    forall j | 0 <= j < |plans| ensures Publishable(u, plans[j], account, login) {
      if j != i {
        BeadsDiffer(plans, i, j);
        OtherBeadKept(t, u, plans[i], plans[j]);
        KeptPublishable(t, u, plans[j], account, login);
      }
    }
  }

  /** From `s` to `t` the first beads were published, with the comments `ids`, and nothing else was done. */
  ghost predicate Published(s: Store, t: Store, plans: seq<Plan>, ids: seq<nat>, login: string) {
    && Reported(t, plans, ids) && Progress(s, t, plans, |ids|, login)
    && (Agreeing(plans) ==> IssuesSet(t, plans, |ids|))
  }

  /** Publishes bead `i` after the beads before it. */
  method PublishNext(hub: Tracker, ghost start: Store, plans: seq<Plan>, ghost ids: seq<nat>, i: nat, login: string)
    returns (r: Result<nat, Fault>)
    requires hub.store.Valid() && AllMarked(plans) && DistinctIds(plans) && i == |ids| < |plans|
    requires Published(start, hub.store, plans, ids, login)
    modifies hub
    ensures hub.store.Valid() && hub.calls > old(hub.calls)
    ensures TouchesOnlyPlans(start, hub.store, plans)
    ensures forall j | 0 <= j < |plans| :: NoDuplicate(start, hub.store, plans[j])
    ensures r.Ok? ==> Published(start, hub.store, plans, ids + [r.value], login)
    ensures AllConverged(old(hub.store), plans, login) ==> hub.store == old(hub.store) && hub.sent == old(hub.sent)
    ensures old(hub.Reliable()) ==> hub.Reliable()
    ensures old(hub.Reliable()) && FirstPublishable(start, plans, i, hub.account, login) ==>
              (r.Ok? <==> FirstPublishable(start, plans, i + 1, hub.account, login))
    ensures FirstPublishable(old(hub.store), plans, |plans|, hub.account, login) ==>
              FirstPublishable(hub.store, plans, |plans|, hub.account, login)
  {
    ghost var now := hub.store;
    assert plans[i].Marked() by { assert plans[i] in plans; }
    NextPublishable(start, now, plans, i, hub.account, login);
    r := PublishComment(hub, plans[i], login);
    ProgressStep(start, now, hub.store, plans, i, login);
    if FirstPublishable(now, plans, |plans|, hub.account, login) {
      StillPublishable(now, hub.store, plans, i, hub.account, login);
    }
    if r.Ok? {
      if Agreeing(plans) { IssuesSetStep(now, hub.store, plans, i); }
      ReportedStep(now, hub.store, plans, ids, r.value);
    }
  }

  lemma ProgressStarts(s: Store, plans: seq<Plan>, login: string)
    ensures Published(s, s, plans, [], login)
  {
  }

  /** Publishes every bead in turn and stops at the first failure. */
  method PublishPlans(hub: Tracker, plans: seq<Plan>, login: string) returns (r: Result<seq<nat>, Fault>)
    requires hub.store.Valid() && AllMarked(plans) && DistinctIds(plans)
    modifies hub
    ensures hub.store.Valid()
    ensures TouchesOnlyPlans(old(hub.store), hub.store, plans)
    ensures forall j | 0 <= j < |plans| :: NoDuplicate(old(hub.store), hub.store, plans[j])
    ensures r.Ok? ==> |r.value| == |plans| && Reported(hub.store, plans, r.value)
    ensures r.Ok? ==> forall j | 0 <= j < |plans| :: CommentConverged(hub.store, plans[j], login)
    ensures r.Ok? ==> (AllConverged(hub.store, plans, login) <==> Agreeing(plans))
    ensures old(AllConverged(hub.store, plans, login)) ==> hub.store == old(hub.store) && hub.sent == old(hub.sent)
    ensures old(hub.Reliable()) ==>
              (r.Ok? <==> FirstPublishable(old(hub.store), plans, |plans|, hub.account, login))
    ensures FirstPublishable(old(hub.store), plans, |plans|, hub.account, login) ==>
              FirstPublishable(hub.store, plans, |plans|, hub.account, login)
  {
    ghost var start := hub.store;
    ghost var reliable := hub.Reliable();
    var ids := [];
    ProgressStarts(start, plans, login);
    for i := 0 to |plans|
      invariant hub.store.Valid() && |ids| == i && hub.calls >= old(hub.calls)
      invariant Published(start, hub.store, plans, ids, login)
      invariant AllConverged(start, plans, login) ==> hub.store == start && hub.sent == old(hub.sent)
      invariant reliable ==> hub.Reliable() && FirstPublishable(start, plans, i, hub.account, login)
      invariant FirstPublishable(start, plans, |plans|, hub.account, login) ==>
        FirstPublishable(hub.store, plans, |plans|, hub.account, login)
    {
      var published := PublishNext(hub, start, plans, ids, i, login);
      if published.Err? {
        if reliable { NotFirstPublishable(start, plans, i, hub.account, login); }
        return Err(published.error);
      }
      ids := ids + [published.value];
    }
    AllDone(hub.store, plans, login);
    r := Ok(ids);
  }

  // ---------- from beads to plans ----------

  datatype DeliveryFault = UnrecordedClosure | IncompleteCode | ContradictoryNoCode

  /** `blank` says of a closing reason that it is empty once trimmed. */
  function ValidateDelivery(bead: Bead, blank: string -> bool): Option<DeliveryFault> {
    if bead.closed && (bead.closeReason == None || blank(bead.closeReason.value) || bead.delivery == None) then
      Some(UnrecordedClosure)
    else if bead.delivery == None then None
    else
      var d := bead.delivery.value;
      if d.code && (d.commits == [] || (d.pullRequest == None && d.noPrReason == None)) then Some(IncompleteCode)
      else if !d.code && (d.commits != [] || d.pullRequest != None || d.noPrReason == None) then
        Some(ContradictoryNoCode)
      else None
  }

  /** A closed bead says why, with its delivery. */
  ghost predicate ClosureRecorded(bead: Bead, blank: string -> bool) {
    bead.closed ==> bead.closeReason.Some? && !blank(bead.closeReason.value) && bead.delivery.Some?
  }

  /** Code has commits and a pull request or a reason for having none; anything else has that reason and no code. */
  ghost predicate DeliveryConsistent(d: Delivery) {
    if d.code then d.commits != [] && !(d.pullRequest.None? && d.noPrReason.None?)
    else d.commits == [] && d.pullRequest.None? && d.noPrReason.Some?
  }

  lemma DeliveryIsValid(bead: Bead, blank: string -> bool)
    ensures ValidateDelivery(bead, blank).None? <==>
              ClosureRecorded(bead, blank) && (bead.delivery.Some? ==> DeliveryConsistent(bead.delivery.value))
    ensures ValidateDelivery(bead, blank) == Some(UnrecordedClosure) <==> !ClosureRecorded(bead, blank)
    ensures ValidateDelivery(bead, blank) == Some(IncompleteCode) ==> bead.delivery.Some? && bead.delivery.value.code
    ensures ValidateDelivery(bead, blank) == Some(ContradictoryNoCode) ==>
              bead.delivery.Some? && !bead.delivery.value.code
  {
  }

  /** The missing final commit that the delivery text guards against cannot happen to a validated bead. */
  lemma ValidatedCodeHasCommit(bead: Bead, blank: string -> bool)
    requires ValidateDelivery(bead, blank) == None && bead.delivery.Some?
    ensures bead.delivery.value.code <==> bead.delivery.value.commits != []
    ensures bead.delivery.value.pullRequest == None ==> bead.delivery.value.noPrReason.Some?
  {
  }

  datatype PublishFault = Scoping(scope: ScopeFault) | Rejected(id: string) | Unpublished(id: string)
                        | Uncomposed(id: string) | Publishing(fault: Fault) | NotExported

  /** `compose` is the text below the marker, where the facts it needs could be gathered. */
  function PlanOf(bead: Bead, compose: Bead -> Option<string>): Result<Plan, PublishFault> {
    if bead.issue == None then Err(Unpublished(bead.id))
    else if compose(bead) == None then Err(Uncomposed(bead.id))
    else Ok(Plan(bead.id, bead.issue.value, Issue(bead.closed, bead.title),
                 Marker(bead.id) + "\n" + compose(bead).value))
  }

  /** The plans are those of the beads listed, in that order. */
  ghost predicate Planned(beads: Beads, order: seq<string>, compose: Bead -> Option<string>, plans: seq<Plan>) {
    && |plans| == |order|
    && forall j | 0 <= j < |order| ::
         order[j] in beads.shown && PlanOf(beads.shown[order[j]], compose) == Ok(plans[j])
  }

  ghost predicate Plannable(beads: Beads, order: seq<string>, compose: Bead -> Option<string>) {
    forall id | id in order :: id in beads.shown && PlanOf(beads.shown[id], compose).Ok?
  }

  ghost predicate AllDeliverable(beads: Beads, order: seq<string>, blank: string -> bool) {
    forall id | id in order :: id in beads.shown && ValidateDelivery(beads.shown[id], blank) == None
  }

  ghost predicate Shown(beads: Beads, order: seq<string>) {
    beads.Valid() && forall id | id in order :: id in beads.shown && BeadId(id)
  }

  method PlansOf(beads: Beads, order: seq<string>, compose: Bead -> Option<string>)
    returns (r: Result<seq<Plan>, PublishFault>)
    requires Shown(beads, order)
    ensures r.Ok? <==> Plannable(beads, order, compose)
    ensures r.Ok? ==> Planned(beads, order, compose, r.value)
    ensures r.Err? ==> !r.error.Publishing? && !r.error.NotExported?
  {
    var plans := [];
    for i := 0 to |order|
      invariant Planned(beads, order[..i], compose, plans)
    {
      assert order[i] in order;
      var planned := PlanOf(beads.shown[order[i]], compose);
      if planned.Err? {
        return Err(planned.error);
      }
      plans := plans + [planned.value];
    }
    assert order[..|order|] == order;
    r := Ok(plans);
  }

  lemma PlannedAreMarked(beads: Beads, order: seq<string>, compose: Bead -> Option<string>, plans: seq<Plan>)
    requires Shown(beads, order) && Distinct(order) && Planned(beads, order, compose, plans)
    ensures AllMarked(plans) && DistinctIds(plans)
  {
    forall p | p in plans
      ensures p.Marked()
    {
      var j :| 0 <= j < |plans| && plans[j] == p;
      assert order[j] in order;
    }
  }

  method CheckDeliveries(beads: Beads, order: seq<string>, blank: string -> bool) returns (r: Option<PublishFault>)
    requires Shown(beads, order)
    ensures r.None? <==> AllDeliverable(beads, order, blank)
    ensures r.Some? ==> r.value.Rejected?
  {
    for i := 0 to |order|
      invariant AllDeliverable(beads, order[..i], blank)
    {
      assert order[i] in order && order[..i+1] == order[..i] + [order[i]];
      if ValidateDelivery(beads.shown[order[i]], blank) != None {
        return Some(Rejected(order[i]));
      }
    }
    assert order[..|order|] == order;
    r := None;
  }

  ghost predicate IsTree(beads: Beads, root: string)
    requires beads.Valid()
  {
    KnownAndUnseen(beads, [root], {}) && OnePathEach(beads, [root])
  }

  function ScopeOf(beads: Beads, root: string): seq<string>
    requires beads.Valid() && Walk(beads, [root], {}).Done?
  {
    Walk(beads, [root], {}).order
  }

  lemma ScopeIsShown(beads: Beads, root: string)
    requires beads.Valid() && (forall id | id in beads.shown :: BeadId(id)) && Walk(beads, [root], {}).Done?
    ensures Shown(beads, ScopeOf(beads, root)) && Distinct(ScopeOf(beads, root))
  {
    WalkIsDistinct(beads, [root], {});
  }

  /** Reads the scope, checks every bead in it and composes every comment; writes nothing. */
  method Prepare(beads: Beads, root: string, compose: Bead -> Option<string>, blank: string -> bool)
    returns (r: Result<seq<Plan>, PublishFault>)
    requires beads.Valid() && forall id | id in beads.shown :: BeadId(id)
    ensures r.Ok? ==> IsTree(beads, root) && Walk(beads, [root], {}).Done?
    ensures r.Ok? ==> Planned(beads, ScopeOf(beads, root), compose, r.value)
    ensures r.Ok? ==> AllMarked(r.value) && DistinctIds(r.value)
    ensures r.Err? ==> !r.error.Publishing? && !r.error.NotExported?
    ensures r.Ok? <==> IsTree(beads, root) && Walk(beads, [root], {}).Done?
                       && AllDeliverable(beads, ScopeOf(beads, root), blank)
                       && Plannable(beads, ScopeOf(beads, root), compose)
  {
    var reader := new ScopeReader(beads);
    var scope := reader.PublicationScope(root);
    WalkSucceedsOnTrees(beads, [root], {});
    if scope.Err? {
      return Err(Scoping(scope.error));
    }
    ScopeIsShown(beads, root);
    var problem := CheckDeliveries(beads, scope.value, blank);
    if problem.Some? {
      return Err(problem.value);
    }
    r := PlansOf(beads, scope.value, compose);
    if r.Ok? { PlannedAreMarked(beads, scope.value, compose, r.value); }
  }

  /** The bead's Issue has exactly one comment that starts with the bead's marker, by `login`, with the bead's text. */
  ghost predicate Announced(s: Store, bead: Bead, text: string, login: string)
    requires bead.issue.Some?
  {
    var marker := "<!-- pi-stuff:beads-delivery:" + bead.id + " -->";
    exists k ::
      && k in s.comments && s.comments[k] == Comment(bead.issue.value, marker + "\n" + text, login)
      && forall other | other in s.comments && s.comments[other].issue == bead.issue.value ::
           marker <= s.comments[other].body ==> other == k
  }

  /** What a successful publication leaves for the bead `id`. */
  ghost predicate Delivered(s: Store, beads: Beads, id: string, compose: Bead -> Option<string>, login: string) {
    && id in beads.shown
    && var bead := beads.shown[id];
    && bead.issue.Some? && compose(bead).Some? && Announced(s, bead, compose(bead).value, login)
  }

  /** The bead's Issue is closed or open, and titled, as the bead is. */
  ghost predicate StateShown(s: Store, bead: Bead) {
    && bead.issue.Some? && bead.issue.value in s.issues
    && s.issues[bead.issue.value] == Issue(bead.closed, bead.title)
  }

  ghost predicate AllStatesShown(s: Store, beads: Beads, order: seq<string>) {
    forall id | id in order :: id in beads.shown && StateShown(s, beads.shown[id])
  }

  /** Beads that share an Issue are closed or open, and titled, alike. */
  ghost predicate BeadsAgree(beads: Beads, order: seq<string>) {
    forall a, b | a in order && b in order && a in beads.shown && b in beads.shown
                  && beads.shown[a].issue == beads.shown[b].issue ::
      beads.shown[a].closed == beads.shown[b].closed && beads.shown[a].title == beads.shown[b].title
  }

  /** A bead with an Issue and a text has a plan, which asks for the bead's own state, title and text on that Issue. */
  lemma PlanShowsBead(bead: Bead, compose: Bead -> Option<string>)
    ensures PlanOf(bead, compose).Ok? <==> bead.issue.Some? && compose(bead).Some?
    ensures bead.issue.None? ==> PlanOf(bead, compose) == Err(Unpublished(bead.id))
    ensures bead.issue.Some? && compose(bead).None? ==> PlanOf(bead, compose) == Err(Uncomposed(bead.id))
    ensures PlanOf(bead, compose).Ok? ==>
      var p := PlanOf(bead, compose).value;
      && bead.issue == Some(p.number) && p.id == bead.id && p.issue == Issue(bead.closed, bead.title)
      && compose(bead).Some? && p.body == Marker(bead.id) + "\n" + compose(bead).value
  {
  }

  lemma ConvergedAnnounces(s: Store, bead: Bead, compose: Bead -> Option<string>, login: string)
    requires PlanOf(bead, compose).Ok? && CommentConverged(s, PlanOf(bead, compose).value, login)
    ensures bead.issue.Some? && compose(bead).Some? && Announced(s, bead, compose(bead).value, login)
  {
    PlanShowsBead(bead, compose);
    var p := PlanOf(bead, compose).value;
    var k :| Managed(s, p) == {k} && s.comments[k] == Comment(p.number, p.body, login);
    assert k in Managed(s, p);
    forall other | other in s.comments && s.comments[other].issue == p.number
                   && Marker(bead.id) <= s.comments[other].body
      ensures other == k
    {
      assert other in Managed(s, p);
    }
  }

  lemma PlannedAt(beads: Beads, order: seq<string>, compose: Bead -> Option<string>, plans: seq<Plan>, id: string)
    returns (j: nat)
    requires Planned(beads, order, compose, plans) && id in order
    ensures j < |plans| && id in beads.shown && PlanOf(beads.shown[id], compose) == Ok(plans[j])
  {
    j :| 0 <= j < |order| && order[j] == id;
  }

  lemma EveryDescendantDelivered(s: Store, beads: Beads, root: string, compose: Bead -> Option<string>,
                                 login: string, plans: seq<Plan>, path: seq<nat>)
    requires beads.Valid() && Walk(beads, [root], {}).Done? && Planned(beads, ScopeOf(beads, root), compose, plans)
    requires forall j | 0 <= j < |plans| :: CommentConverged(s, plans[j], login)
    requires At(beads, [root], path).Some?
    ensures Delivered(s, beads, At(beads, [root], path).value, compose, login)
  {
    var id := At(beads, [root], path).value;
    WalkListsDescendants(beads, [root], {}, id);
    var j := PlannedAt(beads, ScopeOf(beads, root), compose, plans, id);
    assert CommentConverged(s, plans[j], login);
    ConvergedAnnounces(s, beads.shown[id], compose, login);
  }

  /** The Issues show every bead's state exactly when the Issues are as the plans want them. */
  lemma StatesAreIssues(s: Store, beads: Beads, order: seq<string>, compose: Bead -> Option<string>, plans: seq<Plan>,
                        login: string)
    requires Planned(beads, order, compose, plans)
    requires forall j | 0 <= j < |plans| :: CommentConverged(s, plans[j], login)
    ensures AllConverged(s, plans, login) <==> AllStatesShown(s, beads, order)
  {
    forall j | 0 <= j < |plans|
      ensures plans[j] in plans && order[j] in order && PlanOf(beads.shown[order[j]], compose) == Ok(plans[j])
      ensures Converged(s, plans[j], login) <==> StateShown(s, beads.shown[order[j]])
    {
      PlanShowsBead(beads.shown[order[j]], compose);
    }
    if AllConverged(s, plans, login) {
      forall id | id in order ensures id in beads.shown && StateShown(s, beads.shown[id]) {
        var j := PlannedAt(beads, order, compose, plans, id);
        var i :| 0 <= i < |order| && order[i] == id;
        assert Converged(s, plans[i], login);
      }
    }
    if AllStatesShown(s, beads, order) {
      forall p | p in plans ensures Converged(s, p, login) {
        var j :| 0 <= j < |plans| && plans[j] == p;
      }
    }
  }

  lemma AgreementOfPlans(beads: Beads, order: seq<string>, compose: Bead -> Option<string>, plans: seq<Plan>)
    requires Planned(beads, order, compose, plans)
    ensures Agreeing(plans) <==> BeadsAgree(beads, order)
  {
    forall j | 0 <= j < |plans|
      ensures plans[j] in plans && order[j] in order
      ensures var bead := beads.shown[order[j]];
              bead.issue == Some(plans[j].number) && plans[j].issue == Issue(bead.closed, bead.title)
    {
      PlanShowsBead(beads.shown[order[j]], compose);
    }
    if Agreeing(plans) {
      forall a, b | a in order && b in order && beads.shown[a].issue == beads.shown[b].issue
        ensures beads.shown[a].closed == beads.shown[b].closed && beads.shown[a].title == beads.shown[b].title
      {
        var i :| 0 <= i < |order| && order[i] == a;
        var j :| 0 <= j < |order| && order[j] == b;
        assert plans[i].issue == plans[j].issue;
      }
    }
    if BeadsAgree(beads, order) {
      forall p, q | p in plans && q in plans && p.number == q.number ensures p.issue == q.issue {
        var i :| 0 <= i < |plans| && plans[i] == p;
        var j :| 0 <= j < |plans| && plans[j] == q;
        assert beads.shown[order[i]].issue == beads.shown[order[j]].issue;
      }
    }
  }

  /** Every bead was published, whether or not the export of the beads that follows worked. */
  predicate AllPublished(r: Result<seq<nat>, PublishFault>) {
    r.Ok? || r.error.NotExported?
  }

  /** The part of a publication that follows the synchronisation: nothing is written before every bead has passed its
      checks. `exports` says whether the final export of the beads works. */
  method PublishScope(hub: Tracker, beads: Beads, root: string, compose: Bead -> Option<string>, blank: string -> bool,
                      login: string, exports: bool)
    returns (r: Result<seq<nat>, PublishFault>, ghost plans: seq<Plan>)
    requires hub.store.Valid() && beads.Valid() && forall id | id in beads.shown :: BeadId(id)
    modifies hub
    ensures hub.store.Valid()
    ensures !AllPublished(r) && !r.error.Publishing? ==> hub.store == old(hub.store) && hub.sent == old(hub.sent)
    ensures AllMarked(plans) && TouchesOnlyPlans(old(hub.store), hub.store, plans)
    ensures AllConverged(old(hub.store), plans, login) ==> hub.store == old(hub.store) && hub.sent == old(hub.sent)
    ensures AllPublished(r) ==> (r.Ok? <==> exports)
    ensures AllPublished(r) ==> IsTree(beads, root) && Walk(beads, [root], {}).Done?
    ensures AllPublished(r) ==> Planned(beads, ScopeOf(beads, root), compose, plans)
    ensures AllPublished(r) ==> forall path: seq<nat> | At(beads, [root], path).Some? ::
                                  Delivered(hub.store, beads, At(beads, [root], path).value, compose, login)
    ensures AllPublished(r) ==>
              (AllStatesShown(hub.store, beads, ScopeOf(beads, root)) <==> BeadsAgree(beads, ScopeOf(beads, root)))
    ensures FirstPublishable(old(hub.store), plans, |plans|, hub.account, login) ==>
              FirstPublishable(hub.store, plans, |plans|, hub.account, login)
    ensures old(hub.Reliable()) && (AllPublished(r) || r.error.Publishing?) ==>
              (AllPublished(r) <==> FirstPublishable(old(hub.store), plans, |plans|, hub.account, login))
  {
    var prepared := Prepare(beads, root, compose, blank);
    if prepared.Err? {
      return Err(prepared.error), [];
    }
    plans := prepared.value;
    var published := PublishPlans(hub, prepared.value, login);
    if published.Err? {
      return Err(Publishing(published.error)), plans;
    }
    forall path: seq<nat> | At(beads, [root], path).Some?
      ensures Delivered(hub.store, beads, At(beads, [root], path).value, compose, login)
    {
      EveryDescendantDelivered(hub.store, beads, root, compose, login, plans, path);
    }
    StatesAreIssues(hub.store, beads, ScopeOf(beads, root), compose, plans, login);
    AgreementOfPlans(beads, ScopeOf(beads, root), compose, plans);
    r := if exports then Ok(published.value) else Err(NotExported);
  }
}
