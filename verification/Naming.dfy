// egress/types.go: subject tokens and subjects; egress/assignment.go: the
// object-key scope of a body reference.
//
// The Unicode letter and digit tables are the parameter `alnum`; all that the
// results need of it is that '.' is in neither table.

module Naming {

  datatype TokenError = Required | Unsafe(c: char)

  datatype TokenResult = Safe | Rejected(error: TokenError)

  datatype Direction = ControlToExecutor | ExecutorToControl | OtherDirection(text: string)

  datatype SubjectError =
    | BadToken(field: string, error: TokenError)
    | UnsupportedDirection(text: string)

  datatype SubjectResult = Subject(text: string) | NoSubject(error: SubjectError)

  // ------------------------------------------------------------------ tokens

  predicate SafeChar(alnum: char -> bool, c: char) {
    alnum(c) || c == '-' || c == '_'
  }

  ghost predicate SafeToken(alnum: char -> bool, token: string) {
    token != "" && forall i :: 0 <= i < |token| ==> SafeChar(alnum, token[i])
  }

  function ScanToken(alnum: char -> bool, token: string): (r: TokenResult)
    ensures r.Safe? <==> forall i :: 0 <= i < |token| ==> SafeChar(alnum, token[i])
    ensures r.Rejected? ==> exists i ::
                && 0 <= i < |token| && r.error == Unsafe(token[i])
                && !SafeChar(alnum, token[i])
                && forall j :: 0 <= j < i ==> SafeChar(alnum, token[j])
  {
    if token == "" then Safe
    else if !SafeChar(alnum, token[0]) then Rejected(Unsafe(token[0]))
    else
      var rest := ScanToken(alnum, token[1..]);
      assert forall i :: 1 <= i < |token| ==> token[i] == token[1..][i - 1];
      rest
  }

  function ValidateSubjectToken(alnum: char -> bool, token: string): (r: TokenResult)
    ensures r.Safe? <==> SafeToken(alnum, token)
    ensures r.Safe? <==> token != "" && forall i :: 0 <= i < |token| ==> alnum(token[i]) || token[i] in "-_"
    ensures r == Rejected(Required) <==> token == ""
  {
    if token == "" then Rejected(Required) else ScanToken(alnum, token)
  }

  // ---------------------------------------------------------------- subjects

  function DirectionText(d: Direction): string {
    match d
    case ControlToExecutor => "c2e"
    case ExecutorToControl => "e2c"
    case OtherDirection(text) => text
  }

  function Dot(head: string, rest: string): string {
    head + ['.'] + rest
  }

  function AssignmentSubject(alnum: char -> bool, worker: string, session: string): SubjectResult {
    var w := ValidateSubjectToken(alnum, worker);
    if w.Rejected? then NoSubject(BadToken("worker_id", w.error)) else
    var s := ValidateSubjectToken(alnum, session);
    if s.Rejected? then NoSubject(BadToken("session_id", s.error)) else
    // straw.v1.executor.<worker>.<session>.assign
    Subject(Dot("straw", Dot("v1", Dot("executor", Dot(worker, Dot(session, "assign"))))))
  }

  function StreamSubject(alnum: char -> bool, request: string, worker: string, session: string, d: Direction): SubjectResult {
    var r := ValidateSubjectToken(alnum, request);
    if r.Rejected? then NoSubject(BadToken("request_id", r.error)) else
    var w := ValidateSubjectToken(alnum, worker);
    if w.Rejected? then NoSubject(BadToken("worker_id", w.error)) else
    var s := ValidateSubjectToken(alnum, session);
    if s.Rejected? then NoSubject(BadToken("session_id", s.error)) else
    if d.OtherDirection? then NoSubject(UnsupportedDirection(d.text)) else
    // straw.v1.req.<request>.<worker>.<session>.<direction>
    Subject(Dot("straw", Dot("v1", Dot("req", Dot(request, Dot(worker, Dot(session, DirectionText(d))))))))
  }

  // A subject is made exactly if every token is safe, and for a stream the
  // direction is one of the two; the error names the first that is not.
  lemma StreamSubjectMade(alnum: char -> bool, request: string, worker: string, session: string, d: Direction)
    ensures var r := StreamSubject(alnum, request, worker, session, d);
            if !SafeToken(alnum, request) then r == NoSubject(BadToken("request_id", ValidateSubjectToken(alnum, request).error))
            else if !SafeToken(alnum, worker) then r == NoSubject(BadToken("worker_id", ValidateSubjectToken(alnum, worker).error))
            else if !SafeToken(alnum, session) then r == NoSubject(BadToken("session_id", ValidateSubjectToken(alnum, session).error))
            else
              match d
              case ControlToExecutor => r.Subject?
              case ExecutorToControl => r.Subject?
              case OtherDirection(text) => r == NoSubject(UnsupportedDirection(text))
  {
  }

  lemma AssignmentSubjectMade(alnum: char -> bool, worker: string, session: string)
    ensures var r := AssignmentSubject(alnum, worker, session);
            if !SafeToken(alnum, worker) then r == NoSubject(BadToken("worker_id", ValidateSubjectToken(alnum, worker).error))
            else if !SafeToken(alnum, session) then r == NoSubject(BadToken("session_id", ValidateSubjectToken(alnum, session).error))
            else r.Subject?
  {
  }

  // ------------------------------------------------------- splitting at a char

  ghost predicate Without(s: string, c: char) {
    forall i :: 0 <= i < |s| ==> s[i] != c
  }

  function IndexOf(s: string, c: char): (i: nat)
    ensures i <= |s|
    ensures i < |s| ==> s[i] == c
    ensures Without(s[..i], c)
  {
    if s == "" || s[0] == c then 0
    else
      var k := IndexOf(s[1..], c);
      assert forall j :: 1 <= j < k + 1 ==> s[j] == s[1..][j - 1] == s[1..][..k][j - 1];
      k + 1
  }

  function Split(s: string, c: char): (tokens: seq<string>)
    decreases |s|
  {
    var i := IndexOf(s, c);
    if i == |s| then [s] else [s[..i]] + Split(s[i + 1..], c)
  }

  // A separator-free head is where the separator says it is.
  lemma HeadUnique(a: string, x: string, b: string, y: string, c: char)
    requires Without(a, c) && Without(b, c)
    requires a + [c] + x == b + [c] + y
    ensures a == b && x == y
  {
    var s := a + [c] + x;
    assert s[|a|] == c && s[|b|] == c;
    assert |b| <= |a| by {
      assert s[..|b|] == b;
    }
    assert |a| <= |b| by {
      assert s[..|a|] == a;
    }
    assert a == s[..|a|] && b == s[..|b|];
    assert x == s[|a| + 1..] && y == s[|b| + 1..];
  }

  lemma SplitHead(head: string, rest: string)
    requires Without(head, '.')
    ensures Split(Dot(head, rest), '.') == [head] + Split(rest, '.')
  {
    var s := Dot(head, rest);
    var i := IndexOf(s, '.');
    assert s[|head|] == '.';
    assert i < |s|;
    assert s == s[..i] + ['.'] + s[i + 1..];
    HeadUnique(head, rest, s[..i], s[i + 1..], '.');
  }

  lemma SplitLast(s: string, c: char)
    requires Without(s, c)
    ensures Split(s, c) == [s]
  {
  }

  function StreamTokens(request: string, worker: string, session: string, d: Direction): seq<string> {
    ["straw", "v1", "req", request, worker, session, DirectionText(d)]
  }

  function AssignmentTokens(worker: string, session: string): seq<string> {
    ["straw", "v1", "executor", worker, session, "assign"]
  }

  lemma SafeTokenHasNoDot(alnum: char -> bool, token: string)
    requires !alnum('.') && SafeToken(alnum, token)
    ensures Without(token, '.')
  {
    forall i | 0 <= i < |token|
      ensures token[i] != '.'
    {
      assert SafeChar(alnum, token[i]);
    }
  }

  lemma SplitTwo(a: string, b: string, rest: string)
    requires Without(a, '.') && Without(b, '.')
    ensures Split(Dot(a, Dot(b, rest)), '.') == [a, b] + Split(rest, '.')
  {
    var inner, tokens := Dot(b, rest), Split(rest, '.');
    SplitHead(b, rest);
    SplitHead(a, inner);
    assert [a] + ([b] + tokens) == [a, b] + tokens;
  }

  lemma SplitThree(a: string, b: string, c: string, rest: string)
    requires Without(a, '.') && Without(b, '.') && Without(c, '.')
    ensures Split(Dot(a, Dot(b, Dot(c, rest))), '.') == [a, b, c] + Split(rest, '.')
  {
    var inner, tokens := Dot(b, Dot(c, rest)), Split(rest, '.');
    SplitTwo(b, c, rest);
    SplitHead(a, inner);
    assert [a] + ([b, c] + tokens) == [a, b, c] + tokens;
  }

  // Six tokens, as an assignment subject has.
  lemma SplitSix(a: string, b: string, c: string, d: string, e: string, last: string)
    requires Without(a, '.') && Without(b, '.') && Without(c, '.')
    requires Without(d, '.') && Without(e, '.') && Without(last, '.')
    ensures Split(Dot(a, Dot(b, Dot(c, Dot(d, Dot(e, last))))), '.') == [a, b, c, d, e, last]
  {
    var rest := Dot(d, Dot(e, last));
    SplitLast(last, '.');
    SplitTwo(d, e, last);
    SplitThree(a, b, c, rest);
    assert [a, b, c] + ([d, e] + [last]) == [a, b, c, d, e, last];
  }

  // Seven, as a stream subject has.
  lemma SplitSeven(a: string, b: string, c: string, d: string, e: string, f: string, last: string)
    requires Without(a, '.') && Without(b, '.') && Without(c, '.')
    requires Without(d, '.') && Without(e, '.') && Without(f, '.') && Without(last, '.')
    ensures Split(Dot(a, Dot(b, Dot(c, Dot(d, Dot(e, Dot(f, last)))))), '.') == [a, b, c, d, e, f, last]
  {
    var rest := Dot(d, Dot(e, Dot(f, last)));
    SplitLast(last, '.');
    SplitThree(d, e, f, last);
    SplitThree(a, b, c, rest);
    assert [a, b, c] + ([d, e, f] + [last]) == [a, b, c, d, e, f, last];
  }

  lemma LiteralsHaveNoDot()
    ensures Without("straw", '.') && Without("v1", '.')
    ensures Without("req", '.') && Without("c2e", '.') && Without("e2c", '.')
    ensures Without("executor", '.') && Without("assign", '.')
  {
  }

  // Splitting a stream subject at its dots gives back the four parts it was made from.
  lemma StreamSubjectSplits(alnum: char -> bool, request: string, worker: string, session: string, d: Direction)
    requires !alnum('.')
    requires StreamSubject(alnum, request, worker, session, d).Subject?
    ensures Split(StreamSubject(alnum, request, worker, session, d).text, '.')
            == StreamTokens(request, worker, session, d)
    ensures StreamTokens(request, worker, session, d)
            == ["straw", "v1", "req", request, worker, session, if d.ControlToExecutor? then "c2e" else "e2c"]
  {
    SafeTokenHasNoDot(alnum, request);
    SafeTokenHasNoDot(alnum, worker);
    SafeTokenHasNoDot(alnum, session);
    LiteralsHaveNoDot();
    SplitSeven("straw", "v1", "req", request, worker, session, DirectionText(d));
  }

  lemma AssignmentSubjectSplits(alnum: char -> bool, worker: string, session: string)
    requires !alnum('.')
    requires AssignmentSubject(alnum, worker, session).Subject?
    ensures Split(AssignmentSubject(alnum, worker, session).text, '.') == AssignmentTokens(worker, session)
  {
    SafeTokenHasNoDot(alnum, worker);
    SafeTokenHasNoDot(alnum, session);
    LiteralsHaveNoDot();
    SplitSix("straw", "v1", "executor", worker, session, "assign");
  }

  // Two streams share a subject only if they are the same stream.
  lemma StreamSubjectInjective(
    alnum: char -> bool,
    r1: string, w1: string, s1: string, d1: Direction,
    r2: string, w2: string, s2: string, d2: Direction)
    requires !alnum('.')
    requires StreamSubject(alnum, r1, w1, s1, d1).Subject?
    requires StreamSubject(alnum, r1, w1, s1, d1) == StreamSubject(alnum, r2, w2, s2, d2)
    ensures r1 == r2 && w1 == w2 && s1 == s2 && d1 == d2
  {
    StreamSubjectSplits(alnum, r1, w1, s1, d1);
    StreamSubjectSplits(alnum, r2, w2, s2, d2);
    var a, b := StreamTokens(r1, w1, s1, d1), StreamTokens(r2, w2, s2, d2);
    assert a[3] == b[3] && a[4] == b[4] && a[5] == b[5] && a[6] == b[6];
    assert "c2e"[0] != "e2c"[0];
  }

  lemma AssignmentSubjectInjective(alnum: char -> bool, w1: string, s1: string, w2: string, s2: string)
    requires !alnum('.')
    requires AssignmentSubject(alnum, w1, s1).Subject?
    requires AssignmentSubject(alnum, w1, s1) == AssignmentSubject(alnum, w2, s2)
    ensures w1 == w2 && s1 == s2
  {
    AssignmentSubjectSplits(alnum, w1, s1);
    AssignmentSubjectSplits(alnum, w2, s2);
    var a, b := AssignmentTokens(w1, s1), AssignmentTokens(w2, s2);
    assert a[3] == b[3] && a[4] == b[4];
  }

  // No assignment subject is also a stream subject.
  lemma SubjectsDisjoint(alnum: char -> bool, w1: string, s1: string, r2: string, w2: string, s2: string, d2: Direction)
    requires !alnum('.')
    requires AssignmentSubject(alnum, w1, s1).Subject?
    ensures AssignmentSubject(alnum, w1, s1) != StreamSubject(alnum, r2, w2, s2, d2)
  {
    AssignmentSubjectSplits(alnum, w1, s1);
    if AssignmentSubject(alnum, w1, s1) == StreamSubject(alnum, r2, w2, s2, d2) {
      StreamSubjectSplits(alnum, r2, w2, s2, d2);
      assert false;
    }
  }

  // -------------------------------------------------------- body object scope

  function ScopePrefix(deployment: string, request: string): string {
    "deployment/" + deployment + "/request/" + request + "/request/"
  }

  // The key of a body object lies under the request's own prefix.
  predicate KeyScoped(key: string, deployment: string, request: string) {
    ScopePrefix(deployment, request) <= key
  }

  function Slash(head: string, rest: string): string {
    head + ['/'] + rest
  }

  lemma SlashHead(head: string, rest: string)
    requires Without(head, '/')
    ensures Split(Slash(head, rest), '/') == [head] + Split(rest, '/')
  {
    var s := Slash(head, rest);
    var i := IndexOf(s, '/');
    assert s[|head|] == '/';
    assert i < |s|;
    assert s == s[..i] + ['/'] + s[i + 1..];
    HeadUnique(head, rest, s[..i], s[i + 1..], '/');
  }

  lemma SlashFive(a: string, b: string, c: string, d: string, e: string, rest: string)
    requires Without(a, '/') && Without(b, '/') && Without(c, '/') && Without(d, '/') && Without(e, '/')
    ensures Split(Slash(a, Slash(b, Slash(c, Slash(d, Slash(e, rest))))), '/') == [a, b, c, d, e] + Split(rest, '/')
  {
    var s5 := Slash(e, rest);
    var s4 := Slash(d, s5);
    var s3 := Slash(c, s4);
    var s2 := Slash(b, s3);
    SlashHead(e, rest);
    SlashHead(d, s5);
    SlashHead(c, s4);
    SlashHead(b, s3);
    SlashHead(a, s2);
    FiveHeads(a, b, c, d, e, Split(rest, '/'));
  }

  lemma FiveHeads(a: string, b: string, c: string, d: string, e: string, tail: seq<string>)
    ensures [a] + ([b] + ([c] + ([d] + ([e] + tail)))) == [a, b, c, d, e] + tail
  {
  }

  // The first part of a split string, and what is behind it.
  lemma Unsplit(s: string) returns (rest: string)
    requires |Split(s, '/')| >= 2
    ensures s == Slash(Split(s, '/')[0], rest) && Split(rest, '/') == Split(s, '/')[1..]
  {
    var i := IndexOf(s, '/');
    rest := if i < |s| then s[i + 1..] else "";
    assert ([s[..i]] + Split(rest, '/'))[1..] == Split(rest, '/');
  }

  lemma SlashesArePrefix(d: string, r: string, rest: string)
    ensures Slash("deployment", Slash(d, Slash("request", Slash(r, Slash("request", rest))))) == ScopePrefix(d, r) + rest
  {
    assert "deployment" + ['/'] == "deployment/" && ['/'] + "request" + ['/'] == "/request/";
  }

  lemma UnsplitFive(key: string) returns (rest: string)
    requires |Split(key, '/')| >= 6
    ensures var t := Split(key, '/');
            key == Slash(t[0], Slash(t[1], Slash(t[2], Slash(t[3], Slash(t[4], rest)))))
  {
    var s1 := Unsplit(key);
    var s2 := Unsplit(s1);
    var s3 := Unsplit(s2);
    var s4 := Unsplit(s3);
    rest := Unsplit(s4);
  }

  // A key is in scope exactly if its parts are those of the request's objects.
  lemma KeyParts(key: string, d: string, r: string)
    requires Without(d, '/') && Without(r, '/')
    ensures KeyScoped(key, d, r) <==>
            |Split(key, '/')| >= 6 && Split(key, '/')[..5] == ["deployment", d, "request", r, "request"]
  {
    if KeyScoped(key, d, r) {
      var rest := key[|ScopePrefix(d, r)|..];
      SlashesArePrefix(d, r, rest);
      assert key == ScopePrefix(d, r) + rest;
      SlashFive("deployment", d, "request", r, "request", rest);
      SplitNonempty(rest);
    }
    if |Split(key, '/')| >= 6 && Split(key, '/')[..5] == ["deployment", d, "request", r, "request"] {
      var rest := UnsplitFive(key);
      SameParts(Split(key, '/'), d, r);
      SlashesArePrefix(d, r, rest);
    }
  }

  lemma SplitNonempty(s: string)
    ensures |Split(s, '/')| >= 1
  {
  }

  lemma SameParts(t: seq<string>, d: string, r: string)
    requires |t| >= 6 && t[..5] == ["deployment", d, "request", r, "request"]
    ensures t[0] == "deployment" && t[1] == d && t[2] == "request" && t[3] == r && t[4] == "request"
  {
    assert t[0] == t[..5][0] && t[1] == t[..5][1] && t[2] == t[..5][2] && t[3] == t[..5][3] && t[4] == t[..5][4];
  }

  // With slash-free ids, a key is in scope for at most one request of one deployment.
  lemma KeyScopeUnique(key: string, d1: string, r1: string, d2: string, r2: string)
    requires Without(d1, '/') && Without(r1, '/') && Without(d2, '/') && Without(r2, '/')
    requires KeyScoped(key, d1, r1) && KeyScoped(key, d2, r2)
    ensures d1 == d2 && r1 == r2
  {
    var x1 := ScopeTail(key, d1, r1);
    var x2 := ScopeTail(key, d2, r2);
    HeadUnique(d1, "request/" + r1 + "/" + x1, d2, "request/" + r2 + "/" + x2, '/');
    var y1, y2 := "request/" + r1 + "/" + x1, "request/" + r2 + "/" + x2;
    assert y1[8..] == r1 + ['/'] + x1;
    assert y2[8..] == r2 + ['/'] + x2;
    HeadUnique(r1, x1, r2, x2, '/');
  }

  lemma ScopeTail(key: string, deployment: string, request: string) returns (tail: string)
    requires KeyScoped(key, deployment, request)
    ensures key[|"deployment/"|..] == deployment + ['/'] + ("request/" + request + "/" + tail)
  {
    var prefix := ScopePrefix(deployment, request);
    tail := "request/" + key[|prefix|..];
    assert key == prefix + key[|prefix|..];
    assert key == "deployment/" + (deployment + ['/'] + ("request/" + request + "/" + tail));
  }

  // Without that it is not: the deployment id "<d>/request/<r>" reaches into
  // request r of deployment d. Its every key, for any request id, is in scope
  // for both.
  lemma SlashBreaksScope(key: string, d: string, r: string, request: string)
    requires KeyScoped(key, d + "/request/" + r, request)
    ensures KeyScoped(key, d, r)
  {
    var inner := ScopePrefix(d, r);
    var outer := ScopePrefix(d + "/request/" + r, request);
    assert outer == inner + (request + "/request/");
    assert inner == outer[..|inner|];
  }

  // ------------------------------------------- exactly when two scopes overlap

  ghost predicate ScopesOverlap(d1: string, r1: string, d2: string, r2: string) {
    exists key :: KeyScoped(key, d1, r1) && KeyScoped(key, d2, r2)
  }

  lemma OverlapIsPrefix(d1: string, r1: string, d2: string, r2: string)
    ensures ScopesOverlap(d1, r1, d2, r2)
            <==> ScopePrefix(d1, r1) <= ScopePrefix(d2, r2) || ScopePrefix(d2, r2) <= ScopePrefix(d1, r1)
  {
    var p1, p2 := ScopePrefix(d1, r1), ScopePrefix(d2, r2);
    if p1 <= p2 {
      assert KeyScoped(p2, d1, r1) && KeyScoped(p2, d2, r2);
    }
    if p2 <= p1 {
      assert KeyScoped(p1, d1, r1) && KeyScoped(p1, d2, r2);
    }
    if ScopesOverlap(d1, r1, d2, r2) {
      var key :| KeyScoped(key, d1, r1) && KeyScoped(key, d2, r2);
      assert p1 == key[..|p1|] && p2 == key[..|p2|];
    }
  }

  // The objects of request r of deployment d.
  function RequestPath(d: string, r: string): string {
    d + "/request/" + r
  }

  // What makes the keys of (d2, r2) fall into the scope of (d1, r1): the same
  // pair; a deployment id that reaches into that request; or the one clash in
  // which the fixed component doubles as a request id.
  predicate Shadows(d1: string, r1: string, d2: string, r2: string) {
    || (d1 == d2 && r1 == r2)
    || d2 == RequestPath(d1, r1)
    || d2 == RequestPath(d1, r1) + "/request"
    || RequestPath(d1, r1) + "/request/" <= d2
    || (d2 == d1 + "/request" && r1 == "request" && r2 == "request")
  }

  // A separator-free tail is where the last separator says it is.
  lemma TailUnique(a: string, x: string, b: string, y: string, c: char)
    requires Without(x, c) && Without(y, c)
    requires a + [c] + x == b + [c] + y
    ensures a == b && x == y
  {
    var s := a + [c] + x;
    assert s[|a|] == c && s[|b|] == c;
    assert |b| <= |a| by {
      assert s[|a| + 1..] == x;
    }
    assert |a| <= |b| by {
      assert s[|b| + 1..] == y;
    }
    assert a == s[..|a|] && b == s[..|b|];
    assert x == s[|a| + 1..] && y == s[|b| + 1..];
  }

  // The part of a scope prefix after "deployment/".
  function Body(d: string, r: string): string {
    RequestPath(d, r) + "/request/"
  }

  lemma PrefixIsBody(d1: string, r1: string, d2: string, r2: string)
    ensures ScopePrefix(d1, r1) <= ScopePrefix(d2, r2) <==> Body(d1, r1) <= Body(d2, r2)
  {
    var p1, p2, fixed := ScopePrefix(d1, r1), ScopePrefix(d2, r2), "deployment/";
    var b1, b2 := Body(d1, r1), Body(d2, r2);
    assert p1 == fixed + b1 && p2 == fixed + b2;
    assert b1 == p1[|fixed|..] && b2 == p2[|fixed|..];
    if p1 <= p2 {
      assert b2[..|b1|] == p2[|fixed|..|p1|] == b1;
    }
    if b1 <= b2 {
      assert p2[..|p1|] == fixed + b2[..|b1|];
    }
  }

  lemma ShadowsIsPrefix(d1: string, r1: string, d2: string, r2: string)
    requires Shadows(d1, r1, d2, r2)
    ensures Body(d1, r1) <= Body(d2, r2)
  {
    var b1, b2 := Body(d1, r1), Body(d2, r2);
    var path := RequestPath(d1, r1);
    if d2 == path {
      assert b2 == b1 + (r2 + "/request/");
    } else if d2 == path + "/request" {
      assert b2 == b1 + ("request/" + r2 + "/request/");
    } else if path + "/request/" <= d2 {
      assert b1 <= d2 <= b2;
    } else if d2 == d1 + "/request" && r1 == "request" && r2 == "request" {
      assert b2 == d1 + ("/request" + "/request/" + "request" + "/request/");
      assert b1 == d1 + ("/request/" + "request" + "/request/");
    }
  }

  // Where the separators are in what follows the deployment id.
  lemma SlashPositions(r: string, i: nat)
    requires Without(r, '/') && i < |"/request/" + r + "/request/"|
    ensures ("/request/" + r + "/request/")[i] == '/' <==> i == 0 || i == 8 || i == 9 + |r| || i == 17 + |r|
  {
    var tail := "/request/" + r + "/request/";
    if 9 <= i < 9 + |r| {
      assert tail[i] == r[i - 9];
    } else if i < 9 {
      assert tail[i] == "/request/"[i];
    } else {
      assert tail[i] == "/request/"[i - 9 - |r|];
    }
  }

  lemma PrefixIsShadows(d1: string, r1: string, d2: string, r2: string)
    requires Without(r1, '/') && Without(r2, '/')
    requires Body(d1, r1) <= Body(d2, r2)
    ensures Shadows(d1, r1, d2, r2)
  {
    var b1, b2, tail := Body(d1, r1), Body(d2, r2), "/request/" + r2 + "/request/";
    assert b2 == d2 + tail;
    assert b1 == b2[..|b1|];
    if |b1| <= |d2| {
      assert b1 == d2[..|b1|];
    } else {
      var k := |b1| - |d2|;
      assert b1 == d2 + tail[..k];
      assert b1[|b1| - 1] == '/' && tail[k - 1] == '/';
      SlashPositions(r2, k - 1);
      CutAt(d1, r1, d2, r2, k);
    }
  }

  // The four places at which the shorter body can end within the longer.
  lemma CutAt(d1: string, r1: string, d2: string, r2: string, k: nat)
    requires Without(r1, '/') && Without(r2, '/')
    requires k == 1 || k == 9 || k == 10 + |r2| || k == 18 + |r2|
    requires Body(d1, r1) == d2 + ("/request/" + r2 + "/request/")[..k]
    ensures Shadows(d1, r1, d2, r2)
  {
    var path, tail := RequestPath(d1, r1), "/request/" + r2 + "/request/";
    var b1 := path + "/request/";
    if k == 1 {
      assert tail[..k] == "/";
      assert d2 == b1[..|b1| - 1] == path + "/request";
    } else if k == 9 {
      assert tail[..k] == "/request/";
      assert d2 == b1[..|b1| - 9] == path;
    } else if k == 10 + |r2| {
      assert tail[..k] == "/request/" + r2 + "/";
      CutAfterId(d1, r1, d2, r2);
    } else {
      assert tail[..k] == tail;
      assert b1 == RequestPath(d2, r2) + "/request/";
      assert path == b1[..|path|] && RequestPath(d2, r2) == b1[..|b1| - 9];
      SamePath(d1, r1, d2, r2);
    }
  }

  lemma SamePath(d1: string, r1: string, d2: string, r2: string)
    requires Without(r1, '/') && Without(r2, '/') && RequestPath(d1, r1) == RequestPath(d2, r2)
    ensures d1 == d2 && r1 == r2
  {
    assert RequestPath(d1, r1) == (d1 + "/request") + ['/'] + r1;
    assert RequestPath(d2, r2) == (d2 + "/request") + ['/'] + r2;
    TailUnique(d1 + "/request", r1, d2 + "/request", r2, '/');
    assert d1 == (d1 + "/request")[..|d1|] && d2 == (d2 + "/request")[..|d2|];
  }

  lemma CutAfterId(d1: string, r1: string, d2: string, r2: string)
    requires Without(r1, '/') && Without(r2, '/')
    requires RequestPath(d1, r1) + "/request/" == d2 + ("/request/" + r2 + "/")
    ensures d2 == d1 + "/request" && r1 == "request" && r2 == "request"
  {
    var s := RequestPath(d1, r1) + "/request/";
    var cut := s[..|s| - 1];
    assert cut == RequestPath(d1, r1) + ['/'] + "request";
    assert cut == (d2 + "/request") + ['/'] + r2;
    TailUnique(RequestPath(d1, r1), "request", d2 + "/request", r2, '/');
    assert (d1 + "/request") + ['/'] + r1 == RequestPath(d1, r1);
    assert d2 + ['/'] + "request" == d2 + "/request";
    TailUnique(d1 + "/request", r1, d2, "request", '/');
  }

  // Exactly when an object key can be in scope for two requests. Request ids
  // are validated subject tokens and hold no slash; deployment ids may.
  lemma ScopesOverlapIff(d1: string, r1: string, d2: string, r2: string)
    requires Without(r1, '/') && Without(r2, '/')
    ensures ScopesOverlap(d1, r1, d2, r2) <==> Shadows(d1, r1, d2, r2) || Shadows(d2, r2, d1, r1)
  {
    OverlapIsPrefix(d1, r1, d2, r2);
    PrefixIsBody(d1, r1, d2, r2);
    PrefixIsBody(d2, r2, d1, r1);
    if Shadows(d1, r1, d2, r2) {
      ShadowsIsPrefix(d1, r1, d2, r2);
    }
    if Shadows(d2, r2, d1, r1) {
      ShadowsIsPrefix(d2, r2, d1, r1);
    }
    if Body(d1, r1) <= Body(d2, r2) {
      PrefixIsShadows(d1, r1, d2, r2);
    }
    if Body(d2, r2) <= Body(d1, r1) {
      PrefixIsShadows(d2, r2, d1, r1);
    }
  }
}
