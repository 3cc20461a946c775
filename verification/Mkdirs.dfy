/** mkdirs: every prefix of a path becomes a directory, by patching the separators of a
    copy one after another. */
module Mkdirs {
  import opened CText

  // ---- an abstract file system ----

  datatype Kind = Directory | Other

  /** A place in the tree: its names from the root or from the working directory, both of
      which are directories. */
  datatype Place = Place(absolute: bool, names: seq<string>)

  type Tree = map<Place, Kind>

  predicate Exists(t: Tree, p: Place) {
    p.names == [] || p in t
  }

  predicate IsDir(t: Tree, p: Place) {
    p.names == [] || (p in t && t[p] == Directory)
  }

  function Parent(p: Place): Place
    requires p.names != []
  {
    p.(names := p.names[..|p.names| - 1])
  }

  /** Entries stand in directories. */
  ghost predicate Closed(t: Tree) {
    forall p :: p in t ==> p.names != [] && IsDir(t, Parent(p))
  }

  /** The names of a path; repeated and trailing separators make none. */
  function Names(s: string): seq<string>
    decreases |s|
  {
    if s == "" then []
    else
      var n := Cspn(s, {'/'});
      if n == 0 then Names(s[1..])
      else if n == |s| then [s]
      else [s[..n]] + Names(s[n + 1..])
  }

  function PlaceOf(path: string): Place {
    Place(At(path, 0) == '/', Names(path))
  }

  const PATH_MAX: nat := 4096

  /** Paths the system refuses whatever the tree. */
  predicate Refused(path: string) {
    path == "" || |path| >= PATH_MAX
  }

  datatype Stat = Missing | Found(kind: Kind)

  /** stat(); a trailing separator demands a directory. */
  function StatOf(t: Tree, path: string): Stat {
    var p := PlaceOf(path);
    if Refused(path) || !Exists(t, p) then Missing
    else if IsDir(t, p) then Found(Directory)
    else if path[|path| - 1] == '/' then Missing
    else Found(Other)
  }

  /** What happens to a mkdir() that could succeed: it does, somebody else makes an entry
      of the name first, or it is refused. */
  datatype Chance = Made | Raced(kind: Kind) | Denied

  /** The tree afterwards, and whether the call succeeds or fails with EEXIST. */
  function AfterMkdir(t: Tree, path: string, chance: Chance): (Tree, bool) {
    var p := PlaceOf(path);
    if Refused(path) then (t, false)
    else if Exists(t, p) then (t, true)
    else if !IsDir(t, Parent(p)) then (t, false)
    else match chance
      case Made => (t[p := Directory], true)
      case Raced(kind) => (t[p := kind], true)
      case Denied => (t, false)
  }

  /** mkdir_internal. */
  function AfterMkdirInternal(t: Tree, path: string, chance: Chance): (Tree, bool) {
    match StatOf(t, path)
    case Missing => AfterMkdir(t, path, chance)
    case Found(kind) => (t, kind == Directory)
  }

  /** The walk over the prefixes of `copy` that end in front of a separator, and the path
      itself last. A chance belongs to the length of the prefix. */
  function Walk(t: Tree, path: string, copy: string, pp: nat, chance: nat -> Chance): (Tree, bool)
    requires pp <= |copy|
    decreases |copy| - pp
  {
    var sp := pp + Cspn(copy[pp..], {'/'});
    if At(copy, sp) != '/' then AfterMkdirInternal(t, path, chance(|path|))
    else if sp == pp then Walk(t, path, copy, pp + 1, chance)
    else
      var (t1, ok) := AfterMkdirInternal(t, copy[..sp], chance(sp));
      if ok then Walk(t1, path, copy, sp + 1, chance) else (t1, false)
  }

  lemma WalkStep(t: Tree, path: string, copy: string, pp: nat, chance: nat -> Chance)
    requires pp <= |copy|
    ensures var sp := pp + Cspn(copy[pp..], {'/'});
            Walk(t, path, copy, pp, chance) ==
            if At(copy, sp) != '/' then AfterMkdirInternal(t, path, chance(|path|))
            else if sp == pp then Walk(t, path, copy, pp + 1, chance)
            else
              var (t1, ok) := AfterMkdirInternal(t, copy[..sp], chance(sp));
              if ok then Walk(t1, path, copy, sp + 1, chance) else (t1, false)
  {
    hide AfterMkdirInternal;
  }

  /** strncpy into a buffer of PATH_MAX bytes. */
  function Copied(path: string): string {
    if |path| < PATH_MAX then path else path[..PATH_MAX - 1]
  }

  function AfterMkdirs(t: Tree, path: string, chance: nat -> Chance): (Tree, bool) {
    Walk(t, path, Copied(path), 0, chance)
  }

  // ---- in place ----

  class FileSystem {
    var tree: Tree

    constructor (tree: Tree)
      ensures this.tree == tree
    {
      this.tree := tree;
    }

    method MkdirInternal(path: string, chance: Chance) returns (ok: bool)
      modifies this
      ensures (tree, ok) == AfterMkdirInternal(old(tree), path, chance)
    {
      var st := StatOf(tree, path);
      if st.Missing? {
        var r := AfterMkdir(tree, path, chance);
        tree, ok := r.0, r.1;
      } else {
        ok := st.kind == Directory;
      }
    }

    /** One prefix: its separator is cut, and is back in its place afterwards. */
    method MakePrefix(copyPath: array<char>, sp: nat, ghost copy: string, chance: Chance) returns (ok: bool)
      requires sp < |copy| < copyPath.Length && '\0' !in copy && copy[sp] == '/' && copyPath[..|copy|] == copy
      modifies this, copyPath
      ensures copyPath[..] == old(copyPath[..])
      ensures (tree, ok) == AfterMkdirInternal(old(tree), copy[..sp], chance)
    {
      hide AfterMkdirInternal;
      ghost var whole := copyPath[..];
      assert whole[sp] == whole[..|copy|][sp] == '/';
      assert whole[..|copy|][..sp] == whole[..sp];
      copyPath[sp] := '\0';
      CutAt(copy, copyPath[..], sp);
      ok := MkdirInternal(CString(copyPath[..]), chance);
      copyPath[sp] := '/';
    }

    /** The separators of the copy are cut and restored one by one. */
    method Mkdirs(path: string, chance: nat -> Chance) returns (ok: bool)
      requires '\0' !in path
      modifies this
      ensures (tree, ok) == AfterMkdirs(old(tree), path, chance)
    {
      hide AfterMkdirInternal, Walk;
      var copy := Copied(path);
      var copyPath := new char[PATH_MAX](i requires 0 <= i < PATH_MAX => At(copy, i));
      ghost var whole := copyPath[..];
      assert whole[..|copy|] == copy;
      var pp := 0;
      ok := true;
      while ok
        invariant pp <= |copy| && copyPath[..] == whole
        invariant if ok then Walk(tree, path, copy, pp, chance) == AfterMkdirs(old(tree), path, chance)
                  else (tree, ok) == AfterMkdirs(old(tree), path, chance)
        decreases |copy| - pp, ok
      {
        WalkStep(tree, path, copy, pp, chance);
        var sp := pp + Cspn(copy[pp..], {'/'});
        if At(copy, sp) != '/' { break; }
        if sp != pp {
          assert copyPath[..|copy|] == whole[..|copy|];
          ok := MakePrefix(copyPath, sp, copy, chance(sp));
        }
        pp := sp + 1;
      }
      if ok {
        ok := MkdirInternal(path, chance(|path|));
      }
    }
  }

  /** The text in a buffer, up to its terminator. */
  function CString(buf: string): string {
    buf[..Cspn(buf, {})]
  }

  lemma CutAt(copy: string, buf: string, sp: nat)
    requires sp < |copy| < |buf| && '\0' !in copy
    requires buf[..sp] == copy[..sp] && buf[sp] == '\0'
    ensures CString(buf) == copy[..sp]
  {
    assert forall i :: 0 <= i < sp ==> buf[i] == copy[i] && copy[i] in copy;
    CspnIs(buf, {}, sp);
  }

  // ---- names and prefixes ----

  lemma NamesOfPiece(piece: string)
    requires forall i :: 0 <= i < |piece| ==> piece[i] != '/' && piece[i] != '\0'
    ensures Names(piece) == if piece == "" then [] else [piece]
  {
    CspnIs(piece, {'/'}, |piece|);
  }

  lemma CutFirst(a: string, rest: string)
    requires a != "" && '\0' !in a
    ensures var n := Cspn(a, {'/'});
            && Cspn(a + "/" + rest, {'/'}) == n
            && (a + "/" + rest)[..n] == a[..n]
            && (n < |a| ==> (a + "/" + rest)[n + 1..] == a[n + 1..] + "/" + rest)
            && (n == |a| ==> (a + "/" + rest)[n + 1..] == rest)
  {
    var n := Cspn(a, {'/'});
    assert n < |a| ==> a[n] in a;
    CspnIs(a + "/" + rest, {'/'}, n);
  }

  lemma NamesStep(s: string)
    ensures Names(s) ==
            if s == "" then []
            else
              var n := Cspn(s, {'/'});
              if n == 0 then Names(s[1..]) else if n == |s| then [s] else [s[..n]] + Names(s[n + 1..])
  {
  }

  /** A separator splits the names of a path. */
  lemma {:induction false} NamesConcat(a: string, b: string)
    requires '\0' !in a
    ensures Names(a + "/" + b) == Names(a) + Names(b)
    decreases |a|
  {
    hide Names;
    var s := a + "/" + b;
    NamesStep(s);
    NamesStep(a);
    if a == "" {
      assert s == "/" + b;
      CspnIs(s, {'/'}, 0);
      assert s[1..] == b;
    } else {
      var n := Cspn(a, {'/'});
      CutFirst(a, b);
      if n == |a| {
        assert n > 0 && a[..n] == a;
      } else if n == 0 {
        NamesConcat(a[1..], b);
      } else {
        NamesConcat(a[n + 1..], b);
      }
    }
  }

  /** From the start of a piece to its end the names grow by the piece. */
  lemma NamesGrow(path: string, pp: nat, n: nat)
    requires '\0' !in path && pp <= n <= |path|
    requires pp == 0 || path[pp - 1] == '/'
    requires forall i :: pp <= i < n ==> path[i] != '/'
    ensures Names(path[..n]) == Names(path[..pp]) + if n == pp then [] else [path[pp..n]]
  {
    hide Names;
    var piece := path[pp..n];
    forall i | 0 <= i < |piece| ensures piece[i] != '/' && piece[i] != '\0' {
      assert piece[i] == path[pp + i] && path[pp + i] in path;
    }
    NamesOfPiece(piece);
    NamesOfPiece("");
    if pp == 0 {
      assert path[..n] == piece && path[..pp] == "";
    } else {
      assert '\0' !in path[..pp - 1];
      assert path[..n] == path[..pp - 1] + "/" + piece && path[..pp] == path[..pp - 1] + "/" + "";
      NamesConcat(path[..pp - 1], piece);
      NamesConcat(path[..pp - 1], "");
    }
  }

  /** Cut at a separator, a path's names are those in front of it and those behind. */
  lemma NamesSplit(path: string, n: nat)
    requires '\0' !in path && n < |path| && path[n] == '/'
    ensures Names(path) == Names(path[..n]) + Names(path[n + 1..])
    ensures Names(path[..n + 1]) == Names(path[..n])
  {
    hide Names;
    assert '\0' !in path[..n];
    assert path == path[..n] + "/" + path[n + 1..] && path[..n + 1] == path[..n] + "/" + "";
    NamesConcat(path[..n], path[n + 1..]);
    NamesConcat(path[..n], "");
    NamesOfPiece("");
  }

  // ---- what mkdirs does ----

  /** No entry is lost or changed, and entries still stand in directories. */
  ghost predicate Extends(t: Tree, u: Tree) {
    Closed(u) && forall p :: p in t ==> p in u && u[p] == t[p]
  }

  /** All new entries are prefixes of at most `d` names. */
  ghost predicate OnlyPrefixes(t: Tree, u: Tree, absolute: bool, names: seq<string>, d: nat) {
    forall p :: p in u && p !in t ==> exists k :: 0 <= k <= d && k <= |names| && p == Place(absolute, names[..k])
  }

  /** The prefixes in front of the last name are directories and the last one exists; it
      is a directory, too, when nobody raced for a name with something else. */
  ghost predicate Ready(t: Tree, absolute: bool, names: seq<string>, fair: bool) {
    && Closed(t)
    && (forall k :: 0 <= k < |names| ==> IsDir(t, Place(absolute, names[..k])))
    && Exists(t, Place(absolute, names))
    && (fair ==> IsDir(t, Place(absolute, names)))
  }

  ghost predicate Fair(chance: nat -> Chance) {
    forall n :: chance(n) != Raced(Other)
  }

  /** No call is refused and nobody races. */
  ghost predicate Willing(chance: nat -> Chance) {
    forall n :: chance(n) == Made
  }

  /** A new entry in a directory. */
  lemma NewEntry(t: Tree, p: Place, kind: Kind)
    requires Closed(t) && !Exists(t, p) && IsDir(t, Parent(p))
    ensures var u := t[p := kind];
            && Extends(t, u) && (forall q :: q in u && q !in t ==> q == p)
            && Exists(u, p) && IsDir(u, Parent(p)) && (IsDir(u, p) <==> kind == Directory)
  {
    var u := t[p := kind];
    assert Parent(p).names != p.names;
    forall q | q in u ensures q.names != [] && IsDir(u, Parent(q)) {
      if q != p { assert q in t && IsDir(t, Parent(q)) && Parent(q) != p; }
    }
  }

  lemma ParentOfEntry(t: Tree, p: Place)
    requires Closed(t) && Exists(t, p)
    ensures p.names != [] ==> IsDir(t, Parent(p))
    ensures Extends(t, t)
  {
  }

  /** One mkdir_internal: it changes nothing but the path's own place, and without success
      not even that. */
  lemma InternalMeans(t: Tree, path: string, chance: Chance)
    requires Closed(t) && !Refused(path)
    ensures var (u, ok) := AfterMkdirInternal(t, path, chance);
            var p := PlaceOf(path);
            && Extends(t, u) && (forall q :: q in u && q !in t ==> q == p)
            && (ok ==> Exists(u, p) && (p.names != [] ==> IsDir(u, Parent(p))))
            && (ok && chance != Raced(Other) && (path[|path| - 1] != '/' || IsDir(t, p)) ==> IsDir(u, p))
            && (!ok ==> u == t && !IsDir(u, p))
            && (!ok && chance == Made && (p.names != [] ==> IsDir(t, Parent(p))) ==> Exists(u, p))
  {
    hide Names, PlaceOf, Closed, Extends;
    var p := PlaceOf(path);
    if Exists(t, p) {
      ParentOfEntry(t, p);
    } else {
      SameTree(t);
      if IsDir(t, Parent(p)) {
        NewEntry(t, p, Directory);
        NewEntry(t, p, if chance.Raced? then chance.kind else Directory);
      }
    }
  }

  lemma SameTree(t: Tree)
    requires Closed(t)
    ensures Extends(t, t)
  {
  }

  /** One more name: what is ready for the names stays so, and is ready for the next. */
  lemma ReadyForMore(t: Tree, u: Tree, absolute: bool, names: seq<string>, name: string, fair: bool)
    requires Ready(t, absolute, names, fair) && Extends(t, u)
    requires var p := Place(absolute, names + [name]);
             Exists(u, p) && IsDir(u, Parent(p)) && (fair ==> IsDir(u, p))
    ensures Ready(u, absolute, names + [name], fair)
  {
    var more := names + [name];
    assert more[..|names|] == names;
    forall k | 0 <= k < |more| ensures IsDir(u, Place(absolute, more[..k])) {
      if k < |names| {
        assert more[..k] == names[..k] && IsDir(t, Place(absolute, names[..k]));
      }
    }
  }

  /** The walk from a point where the names so far are ready. `d` names are handled: all
      of them on success; on failure the next prefix is no directory. */
  lemma {:induction false} WalkMeans(t: Tree, path: string, pp: nat, chance: nat -> Chance, fair: bool) returns (d: nat)
    requires !Refused(path) && '\0' !in path && pp <= |path| && (pp == 0 || path[pp - 1] == '/')
    requires Ready(t, At(path, 0) == '/', Names(path[..pp]), fair) && (fair ==> Fair(chance))
    ensures var (u, ok) := Walk(t, path, path, pp, chance);
            var absolute, names := At(path, 0) == '/', Names(path);
            && |Names(path[..pp])| <= d <= |names| && Extends(t, u) && OnlyPrefixes(t, u, absolute, names, d)
            && (ok ==> d == |names| && Ready(u, absolute, names, fair))
            && (!ok ==> d < |names| && Ready(u, absolute, names[..d], fair)
                        && !IsDir(u, Place(absolute, names[..d + 1])))
            && (!ok && fair && Willing(chance) ==> Exists(u, Place(absolute, names[..d + 1])))
    decreases |path| - pp
  {
    hide Names, AfterMkdirInternal, Ready, IsDir, Exists, Closed, Fair, Extends, OnlyPrefixes, Refused, Walk;
    ReadyIsClosed(t, At(path, 0) == '/', Names(path[..pp]), fair);
    WalkStep(t, path, path, pp, chance);
    var absolute, names := At(path, 0) == '/', Names(path);
    var sp := pp + Cspn(path[pp..], {'/'});
    PieceEnds(path, pp);
    if sp == |path| {
      d := LastStep(t, path, pp, chance, fair);
    } else {
      NamesGrow(path, pp, sp);
      NamesSplit(path, sp);
      if sp == pp {
        d := WalkMeans(t, path, pp + 1, chance, fair);
      } else {
        var before := Names(path[..pp]);
        var (t1, ok) := AfterMkdirInternal(t, path[..sp], chance(sp));
        PrefixStep(t, path, pp, sp, chance, fair);
        d := |before|;
        assert names[..d] == before && names[..d + 1] == before + [path[pp..sp]];
        if ok {
          d := WalkMeans(t1, path, sp + 1, chance, fair);
          InTurn(t, t1, Walk(t1, path, path, sp + 1, chance).0, absolute, names, |before| + 1, d);
        } else {
          NothingNew(t, absolute, names, d);
        }
      }
    }
  }

  lemma ReadyIsClosed(t: Tree, absolute: bool, names: seq<string>, fair: bool)
    requires Ready(t, absolute, names, fair)
    ensures Closed(t)
  {
  }

  lemma PieceEnds(path: string, pp: nat)
    requires '\0' !in path && pp <= |path|
    ensures var sp := pp + Cspn(path[pp..], {'/'});
            && sp <= |path| && (At(path, sp) == '/' <==> sp < |path|)
            && forall i :: pp <= i < sp ==> path[i] != '/'
  {
    var sp := pp + Cspn(path[pp..], {'/'});
    if sp < |path| { assert path[pp..][sp - pp] == path[sp] && path[sp] in path; }
    assert forall i :: pp <= i < sp ==> path[i] == path[pp..][i - pp];
  }

  lemma PrefixStep(t: Tree, path: string, pp: nat, sp: nat, chance: nat -> Chance, fair: bool)
    requires !Refused(path) && '\0' !in path && pp < sp < |path| && path[sp] == '/'
    requires (pp == 0 || path[pp - 1] == '/') && forall i :: pp <= i < sp ==> path[i] != '/'
    requires Ready(t, At(path, 0) == '/', Names(path[..pp]), fair) && (fair ==> Fair(chance))
    ensures var (u, ok) := AfterMkdirInternal(t, path[..sp], chance(sp));
            var absolute, names := At(path, 0) == '/', Names(path[..sp]);
            && names == Names(path[..pp]) + [path[pp..sp]]
            && Extends(t, u) && (forall q :: q in u && q !in t ==> q == Place(absolute, names))
            && (ok ==> Ready(u, absolute, Names(path[..sp + 1]), fair))
            && (!ok ==> u == t && !IsDir(u, Place(absolute, names)))
            && (!ok && fair && chance(sp) == Made ==> Exists(u, Place(absolute, names)))
  {
    hide Names, AfterMkdirInternal;
    NamesGrow(path, pp, sp);
    NamesSplit(path, sp);
    ParentOfLast(t, At(path, 0) == '/', Names(path[..pp]), path[pp..sp], fair);
    var prefix := path[..sp];
    assert PlaceOf(prefix) == Place(At(path, 0) == '/', Names(prefix));
    InternalMeans(t, prefix, chance(sp));
    var (u, ok) := AfterMkdirInternal(t, prefix, chance(sp));
    if ok { ReadyForMore(t, u, At(path, 0) == '/', Names(path[..pp]), path[pp..sp], fair); }
  }

  lemma LastStep(t: Tree, path: string, pp: nat, chance: nat -> Chance, fair: bool) returns (d: nat)
    requires !Refused(path) && '\0' !in path && pp <= |path| && (pp == 0 || path[pp - 1] == '/')
    requires forall i :: pp <= i < |path| ==> path[i] != '/'
    requires Ready(t, At(path, 0) == '/', Names(path[..pp]), fair) && (fair ==> Fair(chance))
    ensures var (u, ok) := AfterMkdirInternal(t, path, chance(|path|));
            var absolute, names := At(path, 0) == '/', Names(path);
            && |Names(path[..pp])| <= d <= |names| && Extends(t, u) && OnlyPrefixes(t, u, absolute, names, d)
            && (ok ==> d == |names| && Ready(u, absolute, names, fair))
            && (!ok ==> d < |names| && Ready(u, absolute, names[..d], fair)
                        && !IsDir(u, Place(absolute, names[..d + 1])))
            && (!ok && fair && Willing(chance) ==> Exists(u, Place(absolute, names[..d + 1])))
  {
    hide Names, AfterMkdirInternal, Ready, IsDir, Exists, Closed, Extends, OnlyPrefixes;
    ReadyIsClosed(t, At(path, 0) == '/', Names(path[..pp]), fair);
    var absolute, names, before := At(path, 0) == '/', Names(path), Names(path[..pp]);
    assert path[..|path|] == path;
    NamesGrow(path, pp, |path|);
    var (u, ok) := AfterMkdirInternal(t, path, chance(|path|));
    d := |names|;
    assert names[..d] == names;
    if pp < |path| {
      LastPiece(t, path, pp, chance(|path|), fair, before);
      if ok {
        NewPlace(t, u, absolute, names, d);
      } else {
        d := |before|;
        assert names[..d] == before;
        NothingNew(t, absolute, names, d);
      }
    } else {
      EmptyPiece(t, path, chance(|path|), names, fair);
      NothingNew(t, absolute, names, d);
    }
  }

  lemma ParentOfLast(t: Tree, absolute: bool, before: seq<string>, name: string, fair: bool)
    requires Ready(t, absolute, before, fair)
    ensures fair ==> IsDir(t, Parent(Place(absolute, before + [name])))
  {
    assert (before + [name])[..|before|] == before;
  }

  lemma LastPiece(t: Tree, path: string, pp: nat, chance: Chance, fair: bool, before: seq<string>)
    requires !Refused(path) && pp < |path| && path[|path| - 1] != '/'
    requires Names(path) == before + [path[pp..]]
    requires Ready(t, At(path, 0) == '/', before, fair) && (fair ==> chance != Raced(Other))
    ensures var (u, ok) := AfterMkdirInternal(t, path, chance);
            var absolute, names := At(path, 0) == '/', Names(path);
            && Extends(t, u) && (forall q :: q in u && q !in t ==> q == Place(absolute, names))
            && (ok ==> Ready(u, absolute, names, fair))
            && (!ok ==> u == t && !IsDir(u, Place(absolute, names)))
            && (!ok && fair && chance == Made ==> Exists(u, Place(absolute, names)))
  {
    hide Names, AfterMkdirInternal;
    ParentOfLast(t, At(path, 0) == '/', before, path[pp..], fair);
    InternalMeans(t, path, chance);
    var (u, ok) := AfterMkdirInternal(t, path, chance);
    if ok { ReadyForMore(t, u, At(path, 0) == '/', before, path[pp..], fair); }
  }

  lemma NewPlace(t: Tree, u: Tree, absolute: bool, names: seq<string>, d: nat)
    requires d <= |names| && forall q :: q in u && q !in t ==> q == Place(absolute, names[..d])
    ensures OnlyPrefixes(t, u, absolute, names, d)
  {
  }

  lemma NothingNew(t: Tree, absolute: bool, names: seq<string>, d: nat)
    requires Closed(t)
    ensures OnlyPrefixes(t, t, absolute, names, d) && Extends(t, t)
  {
  }

  /** A trailing separator: the path's place is that of the last prefix, which is there. */
  lemma EmptyPiece(t: Tree, path: string, chance: Chance, names: seq<string>, fair: bool)
    requires !Refused(path) && names == Names(path) && path[|path| - 1] == '/'
    requires Ready(t, At(path, 0) == '/', names, fair)
    ensures AfterMkdirInternal(t, path, chance) == (t, true)
  {
    hide Names;
  }

  lemma InTurn(t: Tree, t1: Tree, u: Tree, absolute: bool, names: seq<string>, c: nat, d: nat)
    requires c <= d <= |names| && Extends(t, t1) && Extends(t1, u)
    requires forall q :: q in t1 && q !in t ==> q == Place(absolute, names[..c])
    requires OnlyPrefixes(t1, u, absolute, names, d)
    ensures OnlyPrefixes(t, u, absolute, names, d) && Extends(t, u)
  {
  }

  lemma ReadyAtStart(t: Tree, path: string, fair: bool)
    requires Closed(t)
    ensures Ready(t, At(path, 0) == '/', Names(path[..0]), fair)
  {
  }

  /** For any path shorter than PATH_MAX, with double, leading and trailing separators alike:
      existing entries stay as they are and only prefixes of the path are created; the empty
      path fails and creates nothing. On
      success every prefix is a directory, if nobody raced for a name with something else;
      with such a race all but the last prefix still are. On failure the walk stopped at
      the first prefix that is no directory, and created only shorter ones. */
  lemma MkdirsMeans(t: Tree, path: string, chance: nat -> Chance) returns (d: nat)
    requires Closed(t) && |path| < PATH_MAX && '\0' !in path
    ensures var (u, ok) := AfterMkdirs(t, path, chance); path == "" ==> u == t && !ok
    ensures var (u, ok) := AfterMkdirs(t, path, chance);
            var absolute, names := At(path, 0) == '/', Names(path);
            && d <= |names| && Extends(t, u) && OnlyPrefixes(t, u, absolute, names, d)
            && (ok ==> (forall k :: 0 <= k < |names| ==> IsDir(u, Place(absolute, names[..k])))
                       && Exists(u, Place(absolute, names)))
            && (ok && Fair(chance) ==> IsDir(u, Place(absolute, names)))
            && (!ok && path != "" ==> d < |names| && !IsDir(u, Place(absolute, names[..d + 1])))
            && (!ok ==> forall k :: 0 <= k < d ==> IsDir(u, Place(absolute, names[..k])))
            && (!ok && Fair(chance) ==> IsDir(u, Place(absolute, names[..d])))
  {
    if path == "" {
      SameTree(t);
      return 0;
    }
    var fair := Fair(chance);
    ReadyAtStart(t, path, fair);
    d := WalkMeans(t, path, 0, chance, fair);
    if !AfterMkdirs(t, path, chance).1 { FrontNames(Names(path), d); }
  }

  lemma FrontNames(names: seq<string>, d: nat)
    requires d <= |names|
    ensures forall k :: 0 <= k < d ==> names[..d][..k] == names[..k]
  {
  }

  /** Left alone by everybody, mkdirs succeeds exactly when the path is not empty and no
      prefix of it is something else than a directory beforehand. */
  lemma MkdirsSucceedsIff(t: Tree, path: string, chance: nat -> Chance)
    requires Closed(t) && |path| < PATH_MAX && '\0' !in path && Willing(chance)
    ensures AfterMkdirs(t, path, chance).1 <==>
            path != "" && forall k :: 0 <= k <= |Names(path)| ==>
              var p := Place(At(path, 0) == '/', Names(path)[..k]); p in t ==> t[p] == Directory
  {
    hide Names, Walk, Willing, Fair, Ready, Extends, OnlyPrefixes, Closed, IsDir, Exists;
    if path == "" {
      EmptyPathFails(t, chance);
      return;
    }
    var absolute, names := At(path, 0) == '/', Names(path);
    var (u, ok) := AfterMkdirs(t, path, chance);
    assert Fair(chance) by { WillingIsFair(chance); }
    ReadyAtStart(t, path, true);
    var d := WalkMeans(t, path, 0, chance, true);
    if ok {
      forall k | 0 <= k <= |names|
        ensures var p := Place(absolute, names[..k]); p in t ==> t[p] == Directory
      {
        NotBlocked(t, u, absolute, names, k);
      }
    } else {
      Blocked(t, u, absolute, names, d);
    }
  }

  lemma EmptyPathFails(t: Tree, chance: nat -> Chance)
    ensures AfterMkdirs(t, "", chance) == (t, false)
  {
  }

  lemma WillingIsFair(chance: nat -> Chance)
    requires Willing(chance)
    ensures Fair(chance)
  {
  }

  lemma NotBlocked(t: Tree, u: Tree, absolute: bool, names: seq<string>, k: nat)
    requires Ready(u, absolute, names, true) && Extends(t, u) && k <= |names|
    ensures var p := Place(absolute, names[..k]); p in t ==> t[p] == Directory
  {
    var p := Place(absolute, names[..k]);
    assert k == |names| ==> names[..k] == names;
    assert IsDir(u, p);
    assert p in u ==> p.names != [];
  }

  lemma Blocked(t: Tree, u: Tree, absolute: bool, names: seq<string>, d: nat)
    requires d < |names| && OnlyPrefixes(t, u, absolute, names, d) && Extends(t, u)
    requires Exists(u, Place(absolute, names[..d + 1])) && !IsDir(u, Place(absolute, names[..d + 1]))
    ensures var p := Place(absolute, names[..d + 1]); p in t && t[p] != Directory
  {
    var p := Place(absolute, names[..d + 1]);
    assert |p.names| == d + 1;
  }

  /** The race is the only way to succeed without the directory: here somebody makes a
      file of the name between the stat and the mkdir. */
  lemma RacedFile()
    ensures var (u, ok) := AfterMkdirs(map[], "f", _ => Raced(Other));
            ok && !IsDir(u, PlaceOf("f"))
  {
    CspnIs("f", {'/'}, 1);
    assert "f"[0..] == "f" && Names("f") == ["f"];
    assert Parent(PlaceOf("f")).names == [];
  }
}
