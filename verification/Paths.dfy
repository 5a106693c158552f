/** Where the store keeps each record, and why no two records share a file.

`root` is the data directory, already in the cleaned form that filepath.Join leaves
alone; ids accepted by ValidId contain nothing that Join would change. */
module Paths {

  predicate IdChar(c: char) {
    'a' <= c <= 'z' || 'A' <= c <= 'Z' || '0' <= c <= '9' || c == '_' || c == '-'
  }

  /** The whitelist of session and message ids. */
  predicate ValidId(id: string) {
    id != "" && forall c :: c in id ==> IdChar(c)
  }

  const LOWER := "abcdefghijklmnopqrstuvwxyz"
  const UPPER := "ABCDEFGHIJKLMNOPQRSTUVWXYZ"
  const OTHER := "0123456789_-"

  /** The whitelist spelled out. */
  lemma IdCharsAre(c: char)
    ensures IdChar(c) <==> c in LOWER || c in UPPER || c in OTHER
  {
    LowerAre(c);
    UpperAre(c);
    OtherAre(c);
  }

  lemma LowerAre(c: char)
    ensures c in LOWER <==> 'a' <= c <= 'z'
  {
    if 'a' <= c <= 'z' {
      assert LOWER[c as int - 'a' as int] == c;
    }
  }

  lemma UpperAre(c: char)
    ensures c in UPPER <==> 'A' <= c <= 'Z'
  {
    if 'A' <= c <= 'Z' {
      assert UPPER[c as int - 'A' as int] == c;
    }
  }

  lemma OtherAre(c: char)
    ensures c in OTHER <==> '0' <= c <= '9' || c == '_' || c == '-'
  {
    if '0' <= c <= '9' {
      assert OTHER[c as int - '0' as int] == c;
    } else if c == '_' || c == '-' {
      assert OTHER[if c == '_' then 10 else 11] == c;
    }
  }

  datatype Target = SessionsFile | IndexFile(session: string) | MessageFile(session: string, id: string)

  predicate Accepted(t: Target) {
    match t
    case SessionsFile => true
    case IndexFile(session) => ValidId(session)
    case MessageFile(session, id) => ValidId(session) && ValidId(id)
  }

  /** The directory of a target below the root, and its file name in it. */
  function Dir(t: Target): string {
    match t
    case SessionsFile => ""
    case IndexFile(session) => "/messages/" + session
    case MessageFile(session, _) => "/messages/" + session + "/messages"
  }

  function Name(t: Target): string {
    match t
    case SessionsFile => "sessions.json"
    case IndexFile(_) => "index.json"
    case MessageFile(_, id) => id + ".json"
  }

  function PathOf(root: string, t: Target): string {
    root + Dir(t) + "/" + Name(t)
  }

  /** The layout of the data directory. */
  lemma Layout(root: string, session: string, id: string)
    ensures PathOf(root, SessionsFile) == root + "/sessions.json"
    ensures PathOf(root, IndexFile(session)) == root + "/messages/" + session + "/index.json"
    ensures PathOf(root, MessageFile(session, id)) == root + "/messages/" + session + "/messages/" + id + ".json"
  {
    var dir := root + "/messages/" + session;
    assert root + "" == root && root + "/" + "sessions.json" == root + ("/" + "sessions.json");
    assert root + ("/messages/" + session) == dir && dir + "/" + "index.json" == dir + ("/" + "index.json");
    LayoutOfMessage(root, session, id);
  }

  lemma LayoutOfMessage(root: string, session: string, id: string)
    ensures PathOf(root, MessageFile(session, id)) == root + "/messages/" + session + "/messages/" + id + ".json"
  {
    var dir := root + "/messages/" + session;
    assert root + ("/messages/" + session + "/messages") == dir + "/messages";
    assert dir + "/messages" + "/" + (id + ".json") == dir + ("/messages" + "/") + id + ".json";
    assert "/messages" + "/" == "/messages/";
  }

  /** The temporary file for saving t; `random` is what CreateTemp puts for the star. */
  function TempPath(root: string, t: Target, random: string): string {
    root + Dir(t) + "/" + (".tmp-" + random)
  }

  lemma CancelLeft(a: string, x: string, y: string)
    ensures a + x == a + y <==> x == y
  {
    assert (a + x)[|a|..] == x && (a + y)[|a|..] == y;
  }

  lemma CancelRight(x: string, y: string, a: string)
    ensures x + a == y + a <==> x == y
  {
    if x + a == y + a {
      assert |x| == |y|;
      assert (x + a)[..|x|] == x && (y + a)[..|y|] == y;
    }
  }

  /** What follows the last slash. */
  function Base(path: string): string {
    if '/' !in path then path else Base(path[1..])
  }

  lemma {:induction false} BaseOfJoin(a: string, x: string)
    requires '/' !in x
    ensures Base(a + "/" + x) == x
  {
    var path := a + "/" + x;
    assert path[|a|] == '/';
    if a == "" {
      assert path[1..] == x;
    } else {
      assert path[1..] == a[1..] + "/" + x;
      BaseOfJoin(a[1..], x);
    }
  }

  lemma LastComponent(a: string, x: string, b: string, y: string)
    requires '/' !in x && '/' !in y
    ensures a + "/" + x == b + "/" + y ==> a == b && x == y
  {
    BaseOfJoin(a, x);
    BaseOfJoin(b, y);
    if x == y {
      assert a + "/" + x == a + ("/" + x) && b + "/" + y == b + ("/" + x);
      CancelRight(a, b, "/" + x);
    }
  }

  lemma NameHasNoSlash(t: Target)
    requires Accepted(t)
    ensures '/' !in Name(t) && Name(t)[0] != '.'
  {
    if t.MessageFile? {
      assert t.id[0] in t.id;
      assert forall c :: c in t.id ==> c != '/';
      assert Name(t)[0] == t.id[0];
    }
  }

  lemma DirDecides(s: Target, t: Target)
    requires Accepted(s) && Accepted(t) && Dir(s) == Dir(t)
    ensures s.SessionsFile? <==> t.SessionsFile?
    ensures s.IndexFile? <==> t.IndexFile?
    ensures !s.SessionsFile? ==> s.session == t.session
  {
    if s.IndexFile? && t.IndexFile? {
      CancelLeft("/messages/", s.session, t.session);
    } else if s.MessageFile? && t.MessageFile? {
      CancelRight("/messages/" + s.session, "/messages/" + t.session, "/messages");
      CancelLeft("/messages/", s.session, t.session);
    } else if s.IndexFile? && t.MessageFile? {
      SessionIsNotADir(s.session, t.session);
    } else if s.MessageFile? && t.IndexFile? {
      SessionIsNotADir(t.session, s.session);
    }
  }

  /** A session id contains no slash, so its directory is nobody's messages directory. */
  lemma SessionIsNotADir(session: string, other: string)
    requires ValidId(session)
    ensures "/messages/" + session != "/messages/" + other + "/messages"
  {
    var inner := other + "/messages";
    assert inner[|other|] == '/';
    assert '/' in inner && session != inner;
    assert "/messages/" + other + "/messages" == "/messages/" + inner;
    CancelLeft("/messages/", session, inner);
  }

  /** Two accepted records never share a file. */
  lemma PathsAreInjective(root: string, s: Target, t: Target)
    requires Accepted(s) && Accepted(t) && PathOf(root, s) == PathOf(root, t)
    ensures s == t
  {
    NameHasNoSlash(s);
    NameHasNoSlash(t);
    LastComponent(root + Dir(s), Name(s), root + Dir(t), Name(t));
    CancelLeft(root, Dir(s), Dir(t));
    DirDecides(s, t);
    if s.MessageFile? {
      CancelRight(s.id, t.id, ".json");
    }
  }

  /** A temporary file is never a record's file, so writing one alters no record. */
  lemma TempIsNoTarget(root: string, t: Target, random: string, other: Target)
    requires Accepted(other) && '/' !in random
    ensures TempPath(root, t, random) != PathOf(root, other)
  {
    NameHasNoSlash(other);
    var temp := ".tmp-" + random;
    assert temp[0] == '.';
    LastComponent(root + Dir(t), temp, root + Dir(other), Name(other));
  }
}
