/** `require_storage_path_workspace_prefix`: a caller's storage path is normalised lexically,
    and must then begin with the claimed workspace, optionally behind `workspaces`. */
module StoragePath {
  import opened Wrappers
  import opened Text

  /** The HTTP errors: a blank workspace, and a path outside of it. */
  datatype Refusal = Unprocessable | Forbidden

  // ---------------------------------------------------------------------------
  // posixpath.normpath, for a path that does not begin with a slash
  // ---------------------------------------------------------------------------

  /** `str.split("/")`. */
  function Split(path: string): (parts: seq<string>)
    ensures parts != []
  {
    if path == "" then [""]
    else
      var rest := Split(path[1..]);
      if path[0] == '/' then [""] + rest else [[path[0]] + rest[0]] + rest[1..]
  }

  /** `"/".join`. */
  function Join(parts: seq<string>): string {
    if parts == [] then ""
    else if |parts| == 1 then parts[0]
    else parts[0] + "/" + Join(parts[1..])
  }

  /** One component against the components kept so far. */
  function Push(kept: seq<string>, part: string): seq<string> {
    if part == "" || part == "." then kept
    else if part != ".." || kept == [] || kept[|kept| - 1] == ".." then kept + [part]
    else kept[..|kept| - 1]
  }

  function Normal(parts: seq<string>): seq<string> {
    if parts == [] then [] else Push(Normal(parts[..|parts| - 1]), parts[|parts| - 1])
  }

  function NormPath(path: string): string {
    var joined := Join(Normal(Split(path)));
    if joined == "" then "." else joined
  }

  function StripSlashes(path: string): (p: string)
    ensures p != "" ==> p[0] != '/'
  {
    if path != "" && path[0] == '/' then StripSlashes(path[1..]) else path
  }

  /** Off the front come all slashes, and nothing else. */
  lemma {:induction false} StripSlashesExactly(path: string) returns (n: nat)
    ensures n <= |path| && StripSlashes(path) == path[n..]
    ensures (forall i :: 0 <= i < n ==> path[i] == '/') && (n < |path| ==> path[n] != '/')
  {
    if path != "" && path[0] == '/' {
      var m := StripSlashesExactly(path[1..]);
      n := m + 1;
      assert forall i :: 1 <= i < |path| ==> path[i] == path[1..][i - 1];
    } else {
      n := 0;
    }
  }

  function Trimmed(storagePath: Option<string>): string {
    StripSlashes(Strip(if storagePath.Some? then storagePath.value else ""))
  }

  /** The segments of a path once it is normalised. */
  function Segments(path: string): seq<string> {
    var normalized := NormPath(path);
    if normalized == "" || normalized == "." then [] else Split(normalized)
  }

  /** An optional literal `workspaces`, and then the owner. */
  predicate OwnedBy(segments: seq<string>, workspace: string) {
    var owned := if segments != [] && segments[0] == "workspaces" then segments[1..] else segments;
    owned != [] && owned[0] == workspace
  }

  function RequirePrefix(storagePath: Option<string>, workspaceId: string): Result<string, Refusal> {
    var workspace := Strip(workspaceId);
    if workspace == "" then Err(Unprocessable)
    else if OwnedBy(Segments(Trimmed(storagePath)), workspace) then Ok(workspace)
    else Err(Forbidden)
  }

  // ---------------------------------------------------------------------------
  // What a path means: a walk from the root
  // ---------------------------------------------------------------------------

  /** How far the walk has gone above its start, and the names below that point. */
  datatype Place = Place(above: nat, below: seq<string>)

  function Move(at: Place, part: string): Place {
    if part == "" || part == "." then at
    else if part != ".." then at.(below := at.below + [part])
    else if at.below == [] then at.(above := at.above + 1)
    else at.(below := at.below[..|at.below| - 1])
  }

  function Walk(parts: seq<string>): Place {
    if parts == [] then Place(0, []) else Move(Walk(parts[..|parts| - 1]), parts[|parts| - 1])
  }

  /** Names entered minus names left: negative as soon as a path climbs above its start. */
  function Depth(parts: seq<string>): int {
    if parts == [] then 0
    else
      var part := parts[|parts| - 1];
      Depth(parts[..|parts| - 1]) + (if part == "" || part == "." then 0 else if part == ".." then -1 else 1)
  }

  ghost predicate Climbs(parts: seq<string>) {
    exists k :: 0 <= k <= |parts| && Depth(parts[..k]) < 0
  }

  predicate IsName(part: string) { part != "" && part != "." && part != ".." }

  predicate NoSlash(part: string) { '/' !in part }

  lemma {:induction false} WalkClimbs(parts: seq<string>)
    ensures |Walk(parts).below| - Walk(parts).above == Depth(parts)
    ensures Walk(parts).above > 0 <==> Climbs(parts)
  {
    if parts == [] {
      assert parts[..0] == [];
    } else {
      var init := parts[..|parts| - 1];
      WalkClimbs(init);
      assert parts[..|parts|] == parts;
      if Climbs(init) {
        var k :| 0 <= k <= |init| && Depth(init[..k]) < 0;
        assert parts[..k] == init[..k];
      }
      if Climbs(parts) {
        var k :| 0 <= k <= |parts| && Depth(parts[..k]) < 0;
        if k < |parts| {
          assert parts[..k] == init[..k];
        }
      }
    }
  }

  // ---------------------------------------------------------------------------
  // Splitting and joining
  // ---------------------------------------------------------------------------

  lemma {:induction false} SplitHasNoSlash(path: string)
    ensures forall i :: 0 <= i < |Split(path)| ==> NoSlash(Split(path)[i])
  {
    if path != "" {
      SplitHasNoSlash(path[1..]);
    }
  }

  lemma {:induction false} SplitHead(part: string, rest: string)
    requires NoSlash(part)
    ensures Split(part + "/" + rest) == [part] + Split(rest)
  {
    var s := part + "/" + rest;
    if part == "" {
      assert s[1..] == rest;
    } else {
      assert s[1..] == part[1..] + "/" + rest;
      SplitHead(part[1..], rest);
      assert part == [part[0]] + part[1..];
    }
  }

  lemma {:induction false} SplitAtom(part: string)
    requires NoSlash(part)
    ensures Split(part) == [part]
  {
    if part != "" {
      SplitAtom(part[1..]);
      assert part == [part[0]] + part[1..];
    }
  }

  lemma {:induction false} SplitJoin(parts: seq<string>)
    requires parts != [] && forall i :: 0 <= i < |parts| ==> NoSlash(parts[i])
    ensures Split(Join(parts)) == parts
  {
    if |parts| == 1 {
      SplitAtom(parts[0]);
    } else {
      SplitJoin(parts[1..]);
      SplitHead(parts[0], Join(parts[1..]));
    }
  }

  // ---------------------------------------------------------------------------
  // Normalisation keeps the walk
  // ---------------------------------------------------------------------------

  function Dots(n: nat): (s: seq<string>)
    ensures |s| == n && forall i :: 0 <= i < n ==> s[i] == ".."
  {
    seq(n, i => "..")
  }

  /** The components of the shortest path to a place. */
  function Route(at: Place): seq<string> {
    Dots(at.above) + at.below
  }

  /** The normal form is the shortest way to where the path leads. */
  lemma {:induction false} NormalIsRoute(parts: seq<string>)
    ensures Normal(parts) == Route(Walk(parts))
    ensures forall i :: 0 <= i < |Walk(parts).below| ==> IsName(Walk(parts).below[i]) && Walk(parts).below[i] in parts
  {
    if parts != [] {
      var init, part := parts[..|parts| - 1], parts[|parts| - 1];
      NormalIsRoute(init);
      PushMoves(Walk(init), part);
      forall i | 0 <= i < |Walk(parts).below| ensures IsName(Walk(parts).below[i]) && Walk(parts).below[i] in parts {
        if i < |Walk(init).below| {
          assert Walk(parts).below[i] == Walk(init).below[i];
        }
      }
    }
  }

  lemma PushMoves(at: Place, part: string)
    requires forall i :: 0 <= i < |at.below| ==> IsName(at.below[i])
    ensures Push(Route(at), part) == Route(Move(at, part))
  {
    var route := Route(at);
    if part == ".." {
      if at.below == [] {
        assert route == Dots(at.above);
        assert Dots(at.above) + [".."] == Dots(at.above + 1);
        assert at.above > 0 ==> route[|route| - 1] == "..";
      } else {
        assert route[|route| - 1] == at.below[|at.below| - 1];
        assert route[..|route| - 1] == Dots(at.above) + at.below[..|at.below| - 1];
      }
    } else if IsName(part) {
      assert route + [part] == Dots(at.above) + (at.below + [part]);
    }
  }

  lemma NamesMove(at: Place)
    requires at.below != [] && IsName(at.below[|at.below| - 1])
    ensures Move(at.(below := at.below[..|at.below| - 1]), at.below[|at.below| - 1]) == at
  {
    assert at.below[..|at.below| - 1] + [at.below[|at.below| - 1]] == at.below;
  }

  lemma {:induction false} WalkRoute(at: Place)
    requires forall i :: 0 <= i < |at.below| ==> IsName(at.below[i])
    ensures Walk(Route(at)) == at
    decreases at.above + |at.below|
  {
    hide IsName, Walk, Move;
    var route := Route(at);
    WalkLast(route);
    if at.below != [] {
      assert IsName(at.below[|at.below| - 1]);
      NamesMove(at);
      var nearer := at.(below := at.below[..|at.below| - 1]);
      WalkRoute(nearer);
      assert route[..|route| - 1] == Route(nearer);
      assert nearer.below + [at.below[|at.below| - 1]] == at.below;
    } else if at.above > 0 {
      var nearer := at.(above := at.above - 1);
      WalkRoute(nearer);
      assert route[..|route| - 1] == Route(nearer);
      UpMoves(nearer);
    }
  }

  lemma WalkLast(parts: seq<string>)
    ensures Walk(parts) == if parts == [] then Place(0, [])
                           else Move(Walk(parts[..|parts| - 1]), parts[|parts| - 1])
  {
  }

  lemma UpMoves(at: Place)
    requires at.below == []
    ensures Move(at, "..") == at.(above := at.above + 1)
  {
  }

  lemma JoinIsSpecial(parts: seq<string>)
    requires forall i :: 0 <= i < |parts| ==> NoSlash(parts[i]) && parts[i] != "" && parts[i] != "."
    ensures Join(parts) == "" <==> parts == []
    ensures Join(parts) != "."
  {
    if |parts| > 1 {
      assert |Join(parts)| >= |parts[0]| + 1;
    }
  }

  lemma NormalParts(path: string)
    ensures forall i :: 0 <= i < |Normal(Split(path))| ==>
              NoSlash(Normal(Split(path))[i]) && Normal(Split(path))[i] != "" && Normal(Split(path))[i] != "."
  {
    NormalIsRoute(Split(path));
    SplitHasNoSlash(path);
  }

  lemma SegmentsAreRoute(path: string)
    ensures Segments(path) == Route(Walk(Split(path)))
  {
    NormalIsRoute(Split(path));
    NormalParts(path);
    var kept := Normal(Split(path));
    JoinIsSpecial(kept);
    if kept != [] {
      SplitJoin(kept);
    }
  }

  /** Normalising leads to the same place, and normalising again changes nothing. */
  lemma NormPathKeepsWalk(path: string)
    ensures Walk(Split(NormPath(path))) == Walk(Split(path))
    ensures NormPath(NormPath(path)) == NormPath(path)
  {
    var at := Walk(Split(path));
    NormalIsRoute(Split(path));
    NormalParts(path);
    var kept := Normal(Split(path));
    JoinIsSpecial(kept);
    WalkRoute(at);
    if kept != [] {
      SplitJoin(kept);
    } else {
      SplitAtom(".");
      assert Split(".")[..0] == [];
    }
    NormalIsRoute(Split(NormPath(path)));
  }

  // ---------------------------------------------------------------------------
  // Which paths are accepted
  // ---------------------------------------------------------------------------

  /** The place is the workspace's folder or below it. */
  predicate Under(at: Place, workspace: string) {
    || (|at.below| > 0 && at.below[0] == workspace && workspace != "workspaces")
    || (|at.below| > 1 && at.below[0] == "workspaces" && at.below[1] == workspace)
  }

  /** The exact verdict, for every path and every workspace id: blank ids are refused; the id
      ".." is granted just the paths that climb above the root; any other id just those that
      never climb and end under its folder. */
  lemma AcceptedExactly(storagePath: Option<string>, workspaceId: string)
    ensures var workspace, parts := Strip(workspaceId), Split(Trimmed(storagePath));
            RequirePrefix(storagePath, workspaceId) ==
            if workspace == "" then Err(Unprocessable)
            else if (if workspace == ".." then Climbs(parts) else !Climbs(parts) && Under(Walk(parts), workspace))
            then Ok(workspace)
            else Err(Forbidden)
  {
    var workspace, path := Strip(workspaceId), Trimmed(storagePath);
    var at := Walk(Split(path));
    SegmentsAreRoute(path);
    WalkClimbs(Split(path));
    NormalIsRoute(Split(path));
    if at.above > 0 {
      OwnerAbove(at, workspace);
    } else {
      OwnerBelow(at, workspace);
    }
  }

  lemma OwnerAbove(at: Place, workspace: string)
    requires at.above > 0
    ensures OwnedBy(Route(at), workspace) <==> workspace == ".."
  {
    assert Route(at)[0] == "..";
  }

  lemma OwnerBelow(at: Place, workspace: string)
    requires at.above == 0 && forall i :: 0 <= i < |at.below| ==> IsName(at.below[i])
    ensures OwnedBy(Route(at), workspace) <==> Under(at, workspace)
    ensures Under(at, workspace) ==> IsName(workspace)
  {
    assert Route(at) == at.below;
  }

  /** Ids that no path can be under: those that are not a plain name. */
  lemma NeverAccepted(storagePath: Option<string>, workspaceId: string)
    requires Strip(workspaceId) == "." || '/' in Strip(workspaceId)
    ensures RequirePrefix(storagePath, workspaceId) == Err(Forbidden)
  {
    var parts := Split(Trimmed(storagePath));
    AcceptedExactly(storagePath, workspaceId);
    PlacesAreNames(Trimmed(storagePath));
    var below := Walk(parts).below;
    assert |below| > 0 ==> below[0] != Strip(workspaceId);
    assert |below| > 1 ==> below[1] != Strip(workspaceId);
  }

  lemma PlacesAreNames(path: string)
    ensures forall i :: 0 <= i < |Walk(Split(path)).below| ==>
        IsName(Walk(Split(path)).below[i]) && NoSlash(Walk(Split(path)).below[i])
  {
    NormalIsRoute(Split(path));
    SplitHasNoSlash(path);
  }

  /** Every plain id is granted the two folders that the storage layouts give it, and what is
      written below them without dots. */
  lemma OwnFoldersAreAccepted(workspaceId: string, rest: string)
    requires IsName(workspaceId) && NoSlash(workspaceId) && Strip(workspaceId) == workspaceId
    requires IsName(rest) && NoSlash(rest) && !IsSpace(rest[|rest| - 1])
    ensures RequirePrefix(Some("workspaces/" + workspaceId + "/" + rest), workspaceId) == Ok(workspaceId)
    ensures workspaceId != "workspaces" ==>
        RequirePrefix(Some(workspaceId + "/" + rest), workspaceId) == Ok(workspaceId)
  {
    hide RequirePrefix, Strip, IsName, NoSlash, IsSpace;
    LongForm(workspaceId, rest);
    if workspaceId != "workspaces" {
      ShortForm(workspaceId, rest);
    }
  }

  lemma ShortForm(workspaceId: string, rest: string)
    requires IsName(workspaceId) && NoSlash(workspaceId) && Strip(workspaceId) == workspaceId
    requires IsName(rest) && NoSlash(rest) && !IsSpace(rest[|rest| - 1]) && workspaceId != "workspaces"
    ensures RequirePrefix(Some(workspaceId + "/" + rest), workspaceId) == Ok(workspaceId)
  {
    OwnFolder(workspaceId, [workspaceId, rest]);
    hide RequirePrefix, Strip, Join;
    JoinThree("workspaces", workspaceId, rest);
  }

  lemma LongForm(workspaceId: string, rest: string)
    requires IsName(workspaceId) && NoSlash(workspaceId) && Strip(workspaceId) == workspaceId
    requires IsName(rest) && NoSlash(rest) && !IsSpace(rest[|rest| - 1])
    ensures RequirePrefix(Some("workspaces/" + workspaceId + "/" + rest), workspaceId) == Ok(workspaceId)
  {
    var parts := ["workspaces", workspaceId, rest];
    OwnFolder(workspaceId, parts);
    hide RequirePrefix, Strip, Join;
    JoinThree("workspaces", workspaceId, rest);
    assert "workspaces" + "/" == "workspaces/";
  }

  lemma JoinThree(a: string, b: string, c: string)
    ensures Join([a, b, c]) == a + "/" + b + "/" + c && Join([b, c]) == b + "/" + c
  {
    assert [a, b, c][1..] == [b, c] && [b, c][1..] == [c];
    assert Join([c]) == c && Join([b, c]) == b + "/" + c;
    assert a + "/" + (b + "/" + c) == a + "/" + b + "/" + c;
  }

  lemma OwnFolder(workspaceId: string, parts: seq<string>)
    requires IsName(workspaceId) && Strip(workspaceId) == workspaceId
    requires |parts| > 1 && forall i :: 0 <= i < |parts| ==> IsName(parts[i]) && NoSlash(parts[i])
    requires parts[0] != "" && parts[|parts| - 1] != ""
    requires !IsSpace(parts[0][0]) && !IsSpace(parts[|parts| - 1][|parts[|parts| - 1]| - 1])
    requires Under(Place(0, parts), workspaceId)
    ensures RequirePrefix(Some(Join(parts)), workspaceId) == Ok(workspaceId)
  {
    var path := Join(parts);
    JoinEnds(parts);
    assert Strip(path) == path && StripSlashes(path) == path;
    SplitJoin(parts);
    WalkRoute(Place(0, parts));
    assert Route(Place(0, parts)) == parts;
    WalkClimbs(parts);
    AcceptedExactly(Some(path), workspaceId);
  }

  lemma {:induction false} JoinEnds(parts: seq<string>)
    requires parts != [] && forall i :: 0 <= i < |parts| ==> parts[i] != ""
    ensures Join(parts) != "" && Join(parts)[0] == parts[0][0]
    ensures var last := parts[|parts| - 1]; Join(parts)[|Join(parts)| - 1] == last[|last| - 1]
  {
    if |parts| > 1 {
      JoinEnds(parts[1..]);
      var tail := Join(parts[1..]);
      var s := parts[0] + "/" + tail;
      assert Join(parts) == s && s[0] == parts[0][0] && s[|s| - 1] == tail[|tail| - 1];
    }
  }
}
