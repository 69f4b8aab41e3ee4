/** Projected sessions and the resolution of a session to the root of its tree. */
module Sessions {
  import opened Wrappers

  /** Session, request and process identities are opaque; only their order matters. */
  type Id = nat

  /** A discovered server instance. */
  type Instance = nat

  datatype Status = Idle | Busy | Retry | Unknown

  datatype Path = Path(absolute: bool, parts: seq<string>)

  datatype Session = Session(
    id: Id,
    title: string,
    slug: string,
    parent: Option<Id>,
    directory: Option<Path>,
    workspace: Option<Path>,
    updated: Option<nat>,
    status: Status,
    permissions: seq<Id>,
    questions: seq<Id>)

  predicate Working(session: Session) {
    session.status.Busy? || session.status.Retry?
  }

  predicate UniqueIds(sessions: seq<Session>) {
    forall i, j :: 0 <= i < j < |sessions| ==> sessions[i].id != sessions[j].id
  }

  /** Session tables are keyed by the session's own identity. */
  type Table = table: map<Id, Session> | forall id :: id in table ==> table[id].id == id

  method IndexById(sessions: seq<Session>) returns (table: Table)
    requires UniqueIds(sessions)
    ensures table == TableOf(sessions)
  {
    table := map[];
    for i := 0 to |sessions|
      invariant table == TableOf(sessions[..i])
    {
      assert sessions[..i + 1][..i] == sessions[..i];
      table := table[sessions[i].id := sessions[i]];
    }
    assert sessions[..|sessions|] == sessions;
  }

  function TableOf(sessions: seq<Session>): Table {
    if sessions == [] then map[]
    else
      var last := sessions[|sessions| - 1];
      TableOf(sessions[..|sessions| - 1])[last.id := last]
  }

  /** With unique ids the table holds exactly the listed sessions, in no order. */
  lemma {:induction false} TableHoldsSessions(sessions: seq<Session>)
    requires UniqueIds(sessions)
    ensures forall session ::
              session in sessions <==> session.id in TableOf(sessions) && TableOf(sessions)[session.id] == session
    ensures |TableOf(sessions)| == |sessions|
  {
    if sessions != [] {
      var init, last := sessions[..|sessions| - 1], sessions[|sessions| - 1];
      assert sessions == init + [last];
      assert UniqueIds(init);
      TableHoldsSessions(init);
      assert forall session :: session in init ==> session.id != last.id;
    }
  }

  lemma TableIsOrderFree(left: seq<Session>, right: seq<Session>)
    requires UniqueIds(left) && UniqueIds(right)
    requires forall session :: session in left <==> session in right
    ensures TableOf(left) == TableOf(right)
  {
    TableHoldsSessions(left);
    TableHoldsSessions(right);
    var l, r := TableOf(left), TableOf(right);
    forall id | id in l || id in r ensures id in l && id in r && l[id] == r[id] {
      assert id in l ==> l[id] in left;
      assert id in r ==> r[id] in right;
    }
  }

  /** The walk of `resolve_root` from `current`, started at `subject`. */
  function Climb(table: Table, subject: Id, current: Id, visited: set<Id>): Id
    requires current in table
    decreases table.Keys - visited
  {
    if current in visited then subject
    else
      match table[current].parent
      case None => current
      case Some(parent) =>
        if parent !in table then subject
        else Climb(table, subject, parent, visited + {current})
  }

  function RootOf(table: Table, id: Id): Id
    requires id in table
  {
    Climb(table, id, id, {})
  }

  /** `resolve_root`. */
  method ResolveRoot(session: Session, table: Table) returns (root: Id)
    requires session.id in table && table[session.id] == session
    ensures root == RootOf(table, session.id)
  {
    var subject := session.id;
    var current := session;
    var visited: set<Id> := {};
    while true
      invariant current.id in table && table[current.id] == current
      invariant Climb(table, subject, current.id, visited) == RootOf(table, session.id)
      decreases table.Keys - visited
    {
      if current.id in visited {
        return subject;
      }
      visited := visited + {current.id};
      match current.parent {
        case None => return current.id;
        case Some(parent) =>
          if parent !in table {
            return subject;
          }
          current := table[parent];
      }
    }
  }

  /** The `n`-th ancestor of a session among the listed sessions. */
  function Ancestor(table: Table, id: Id, n: nat): Option<Id>
    requires id in table
    ensures Ancestor(table, id, n).Some? ==> Ancestor(table, id, n).value in table
  {
    if n == 0 then Some(id)
    else
      match Ancestor(table, id, n - 1)
      case None => None
      case Some(child) =>
        match table[child].parent
        case None => None
        case Some(parent) => if parent in table then Some(parent) else None
  }

  predicate IsTop(table: Table, id: Id) {
    id in table && table[id].parent.None?
  }

  ghost predicate HasTop(table: Table, id: Id)
    requires id in table
  {
    exists n: nat :: IsTopAncestor(table, id, n)
  }

  ghost predicate IsTopAncestor(table: Table, id: Id, n: nat)
    requires id in table
  {
    Ancestor(table, id, n).Some? && IsTop(table, Ancestor(table, id, n).value)
  }

  /** `visited` holds the first `n` ancestors, none of which is a top. */
  ghost predicate Walked(table: Table, id: Id, n: nat, visited: set<Id>)
    requires id in table
  {
    && (forall k: nat :: k < n ==> Ancestor(table, id, k).Some? && Ancestor(table, id, k).value in visited)
    && (forall v :: v in visited ==> v in table && !IsTop(table, v))
    && (forall v :: v in visited ==> exists k: nat :: k < n && Ancestor(table, id, k) == Some(v))
  }

  /** Once the walk meets a visited session, every later ancestor is a visited one. */
  lemma {:induction false} CycleNeverLeaves(table: Table, id: Id, n: nat, visited: set<Id>, m: nat)
    requires id in table && Walked(table, id, n, visited)
    requires Ancestor(table, id, n).Some? && Ancestor(table, id, n).value in visited
    ensures Ancestor(table, id, m).Some? && Ancestor(table, id, m).value in visited
  {
    if m > n {
      CycleNeverLeaves(table, id, n, visited, m - 1);
      var child := Ancestor(table, id, m - 1).value;
      var k: nat :| k < n && Ancestor(table, id, k) == Some(child);
      assert Ancestor(table, id, k + 1) == Ancestor(table, id, m);
    }
  }

  lemma {:induction false} MissingStaysMissing(table: Table, id: Id, n: nat, m: nat)
    requires id in table && n <= m && Ancestor(table, id, n).None?
    ensures Ancestor(table, id, m).None?
    decreases m - n
  {
    if n < m {
      MissingStaysMissing(table, id, n, m - 1);
    }
  }

  lemma DanglingHasNoTop(table: Table, id: Id, n: nat, visited: set<Id>)
    requires id in table && Walked(table, id, n, visited)
    requires Ancestor(table, id, n).Some? && !IsTop(table, Ancestor(table, id, n).value) && Ancestor(table, id, n + 1).None?
    ensures !HasTop(table, id)
  {
    forall m: nat ensures !IsTopAncestor(table, id, m) {
      if m > n {
        MissingStaysMissing(table, id, n + 1, m);
      } else if m < n {
        assert Ancestor(table, id, m).value in visited;
      }
    }
  }

  lemma {:induction false} ClimbMeaning(table: Table, id: Id, n: nat, visited: set<Id>)
    requires id in table && Walked(table, id, n, visited) && Ancestor(table, id, n).Some?
    ensures var root := Climb(table, id, Ancestor(table, id, n).value, visited);
      if HasTop(table, id) then exists k: nat :: IsTopAncestor(table, id, k) && Ancestor(table, id, k) == Some(root)
      else root == id
    decreases table.Keys - visited
  {
    var current := Ancestor(table, id, n).value;
    if current in visited {
      forall m: nat ensures !IsTopAncestor(table, id, m) {
        CycleNeverLeaves(table, id, n, visited, m);
      }
    } else if IsTop(table, current) {
      assert IsTopAncestor(table, id, n);
    } else if Ancestor(table, id, n + 1).None? {
      DanglingHasNoTop(table, id, n, visited);
    } else {
      ClimbMeaning(table, id, n + 1, visited + {current});
    }
  }

  /** A session's root is its parentless ancestor; where the parent links dangle or form
      a cycle there is none, and the session is its own root. */
  lemma RootMeaning(table: Table, id: Id)
    requires id in table
    ensures RootOf(table, id) in table
    ensures if HasTop(table, id)
            then exists k: nat :: IsTopAncestor(table, id, k) && Ancestor(table, id, k) == Some(RootOf(table, id))
            else RootOf(table, id) == id
  {
    ClimbMeaning(table, id, 0, {});
  }

  lemma RootIsIdempotent(table: Table, id: Id)
    requires id in table
    ensures RootOf(table, id) in table
    ensures RootOf(table, RootOf(table, id)) == RootOf(table, id)
  {
    RootMeaning(table, id);
  }

  lemma RootsAreListed(table: Table)
    ensures forall id :: id in table ==> RootOf(table, id) in table
    ensures forall id :: id in table ==> RootOf(table, RootOf(table, id)) == RootOf(table, id)
  {
    forall id | id in table
      ensures RootOf(table, id) in table && RootOf(table, RootOf(table, id)) == RootOf(table, id)
    {
      RootIsIdempotent(table, id);
    }
  }
}
