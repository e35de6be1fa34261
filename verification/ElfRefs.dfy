/** Descriptor lifetimes in ext/libelf: elf_begin opens files and archive members, elf_end
    counts activations down and releases a descriptor, and then any ancestors that only
    waited for it, up the chain of parents. */
module ElfRefs {

  datatype Kind = Plain | Archive | Object

  datatype Cmd = NoCmd | Read | Write | ReadWrite | OtherCmd

  /** What the system and the image hold for a call: the file, or the next member of the
      archive, is opened and recognised, or it is not. */
  datatype Found = Nothing | Image(kind: Kind)

  class Elf {
    const kind: Kind
    const fd: int
    const cmd: Cmd
    /** LIBELF_F_MMAP: the library mapped the raw file itself. */
    const mapped: bool
    const parent: Elf?
    ghost const depth: nat
    var activations: nat
    var children: nat

    constructor (kind: Kind, fd: int, cmd: Cmd, mapped: bool, parent: Elf?)
      ensures this.kind == kind && this.fd == fd && this.cmd == cmd && this.mapped == mapped
      ensures this.parent == parent && activations == 1 && children == 0
      ensures depth == if parent == null then 0 else parent.depth + 1
    {
      this.kind, this.fd, this.cmd, this.mapped, this.parent := kind, fd, cmd, mapped, parent;
      depth := if parent == null then 0 else parent.depth + 1;
      activations, children := 1, 0;
    }
  }

  /** d is h or one of the archives around h. */
  ghost predicate OnPath(d: Elf, h: Elf)
    decreases h.depth
  {
    d == h || (h.parent != null && h.parent.depth < h.depth && OnPath(d, h.parent))
  }

  lemma {:induction false} PathGoesUp(d: Elf, h: Elf)
    requires OnPath(d, h) && d.parent != null && d.parent.depth < d.depth
    ensures OnPath(d.parent, h)
    decreases h.depth
  {
    if d == h {
      assert OnPath(d.parent, d.parent);
    } else {
      PathGoesUp(d, h.parent);
    }
  }

  ghost predicate Rooted(live: set<Elf>) {
    forall e <- live :: e.parent != null ==>
      e.parent in live && e.parent.kind.Archive? && e.depth == e.parent.depth + 1
  }

  ghost function Members(live: set<Elf>, a: Elf): set<Elf> {
    set e | e in live && e.parent == a
  }

  ghost function Mapped(live: set<Elf>): set<Elf> {
    set e | e in live && e.mapped
  }

  lemma OneLess(live: set<Elf>, e: Elf, a: Elf)
    requires e in live
    ensures |Members(live - {e}, a)| == |Members(live, a)| - (if e.parent == a then 1 else 0)
  {
    assert Members(live - {e}, a) == Members(live, a) - {e};
  }

  /** Nothing is released twice, or before its members. */
  ghost predicate InOrder(live: set<Elf>, released: seq<Elf>) {
    && (forall i :: 0 <= i < |released| ==> released[i] !in live)
    && (forall i, j :: 0 <= i < j < |released| ==> released[i] != released[j])
    && (forall i :: 0 <= i < |released| && released[i].parent != null ==>
          released[i].parent in live || released[i].parent in released[i + 1..])
  }

  lemma Enlist(live: set<Elf>, released: seq<Elf>, e: Elf)
    requires InOrder(live, released) && e !in released
    ensures InOrder(live + {e}, released)
  {
  }

  lemma OneMore(live: set<Elf>, e: Elf, a: Elf)
    requires e !in live
    ensures |Members(live + {e}, a)| == |Members(live, a)| + (if e.parent == a then 1 else 0)
  {
    assert live + {e} - {e} == live;
    OneLess(live + {e}, e, a);
  }

  lemma Stranger(live: set<Elf>, e: Elf)
    requires Rooted(live) && e !in live
    requires e.parent != null ==>
      e.parent in live && e.parent.kind.Archive? && e.depth == e.parent.depth + 1
    ensures Rooted(live + {e}) && Mapped(live + {e}) == Mapped(live) + (if e.mapped then {e} else {})
  {
  }

  /** The member counts after e has joined: one more for its parent, the same for the others. */
  lemma CountsAfter(live: set<Elf>, e: Elf)
    requires Rooted(live) && e !in live && (e.parent != null ==> e.parent in live)
    ensures |Members(live + {e}, e)| == 0
    ensures forall d <- live :: |Members(live + {e}, d)| == |Members(live, d)| + if e.parent == d then 1 else 0
  {
    assert Members(live, e) == {};
    OneMore(live, e, e);
    forall d: Elf | d in live { OneMore(live, e, d); }
  }

  lemma Retire(live: set<Elf>, released: seq<Elf>, e: Elf)
    requires InOrder(live, released) && e in live
    requires e.parent != null ==> e.parent in live - {e}
    ensures InOrder(live - {e}, released + [e])
  {
    var now := released + [e];
    forall i | 0 <= i < |now| && now[i].parent != null
      ensures now[i].parent in live - {e} || now[i].parent in now[i + 1..]
    {
      if i < |released| {
        assert now[i + 1..] == released[i + 1..] + [e];
        assert now[i].parent in live || now[i].parent in released[i + 1..];
      }
    }
  }

  class Library {
    /** The descriptors that are allocated, the released ones in the order of their release,
        and the descriptors whose file is still mapped. */
    ghost var live: set<Elf>
    ghost var released: seq<Elf>
    ghost var files: set<Elf>

    ghost predicate Waiting(e: Elf)
      reads e
    {
      e.activations > 0 || (e.kind.Archive? && e.children > 0)
    }

    /** The archive of a live member is live, so its mapping, which holds the member's bytes,
        still stands, and counts exactly its live members. */
    ghost predicate Linked()
      reads this, live
    {
      && Rooted(live)
      && (forall e <- live :: e.kind.Archive? ==> e.children == |Members(live, e)|)
      && files == Mapped(live)
    }

    ghost predicate Valid()
      reads this, live
    {
      Linked() && InOrder(live, released) && forall e <- live :: Waiting(e)
    }

    constructor ()
      ensures Valid() && live == {} && released == []
    {
      live, released, files := {}, [], {};
    }

    /** Exactly the descriptors that the program holds, and the archives around them, exist. */
    lemma LiveIffHeld(d: Elf)
      requires Valid()
      ensures d in live <==> exists h: Elf :: h in live && h.activations > 0 && OnPath(d, h)
    {
      if d in live {
        var h := HeldBelow(d);
        assert h.activations > 0 && OnPath(d, h);
      }
      forall h: Elf | h in live && OnPath(d, h) ensures d in live { PathLive(d, h); }
    }

    /** Once every activation has been ended, in whatever order, all is released and unmapped. */
    lemma NothingLeaks()
      requires Valid() && forall d <- live :: d.activations == 0
      ensures live == {} && files == {}
    {
      forall d: Elf | d in live ensures false { LiveIffHeld(d); }
    }

    lemma {:induction false} PathLive(d: Elf, h: Elf)
      requires Linked() && h in live && OnPath(d, h)
      ensures d in live
      decreases h.depth
    {
      if d != h { PathLive(d, h.parent); }
    }

    ghost function Deeper(n: nat): set<Elf>
      reads this
    {
      set e | e in live && e.depth > n
    }

    lemma {:induction false} HeldBelow(d: Elf) returns (h: Elf)
      requires Valid() && d in live
      ensures h in live && h.activations > 0 && OnPath(d, h)
      decreases Deeper(d.depth)
    {
      h := d;
      if d.activations == 0 {
        assert Waiting(d) && Members(live, d) != {};
        var m :| m in Members(live, d);
        assert m in Deeper(d.depth) && m !in Deeper(m.depth);
        h := HeldBelow(m);
        assert OnPath(d, d) && OnPath(d, m);
        PathJoins(d, m, h);
      }
    }

    lemma {:induction false} PathJoins(d: Elf, m: Elf, h: Elf)
      requires OnPath(d, m) && OnPath(m, h)
      ensures OnPath(d, h)
      decreases h.depth
    {
      if m != h { PathJoins(d, m, h.parent); }
    }

    /** elf_end. Descriptors go only on the way up from e, and only once nobody holds them. */
    method End(e: Elf?) returns (left: nat)
      requires Valid() && (e != null ==> e in live)
      modifies this, live
      ensures Valid() && live <= old(live)
      ensures left == if e != null && old(e.activations) > 0 then old(e.activations) - 1 else 0
      ensures forall d <- old(live) :: d.activations == if d == e then left else old(d.activations)
      ensures forall d <- old(live) :: d.activations > 0 ==> d in live
      ensures e != null ==> forall d <- old(live) - live :: OnPath(d, e)
      ensures old(released) <= released
      ensures forall d :: d in released <==> d in old(released) || d in old(live) - live
    {
      hide InOrder;
      if e == null || e.activations == 0 { return 0; }
      e.activations := e.activations - 1;
      if e.activations > 0 { return e.activations; }
      var cur: Elf? := e;
      while cur != null && cur.activations == 0
        invariant Linked() && InOrder(live, released)
        invariant forall d <- live :: d != cur ==> Waiting(d)
        invariant cur != null ==> cur in live && OnPath(cur, e)
        invariant live <= old(live)
        invariant forall d <- old(live) :: d.activations == if d == e then 0 else old(d.activations)
        invariant forall d <- old(live) :: d.activations > 0 ==> d in live
        invariant forall d <- old(live) - live :: OnPath(d, e)
        invariant old(released) <= released
        invariant forall d :: d in released <==> d in old(released) || d in old(live) - live
        decreases live
      {
        if cur.kind.Archive? && cur.children > 0 { return 0; }
        cur := Release(cur, e);
      }
      left := 0;
    }

    /** One turn of elf_end's loop for a descriptor without members. */
    method Release(e: Elf, ghost start: Elf) returns (up: Elf?)
      requires Linked() && InOrder(live, released) && e in live && e.activations == 0
      requires e.kind.Archive? ==> e.children == 0
      requires forall d <- live :: d != e ==> Waiting(d)
      requires OnPath(e, start)
      modifies this, live
      ensures up == e.parent && live == old(live) - {e} && released == old(released) + [e]
      ensures Linked() && InOrder(live, released)
      ensures forall d <- old(live) :: d.activations == old(d.activations)
      ensures forall d <- live :: d != up ==> Waiting(d)
      ensures up != null ==> up in live && OnPath(up, start)
    {
      hide OnPath, InOrder;
      assert Members(live, e) == {};
      if e.mapped { files := files - {e}; }
      up := e.parent;
      if up != null {
        assert e in Members(live, up);
        up.children := up.children - 1;
        PathGoesUp(e, start);
      }
      Retire(live, released, e);
      forall d: Elf | d in live { OneLess(live, e, d); }
      live, released := live - {e}, released + [e];
    }

    /** Raising the count of its parent accounts for the new member e. */
    lemma Adopted(was: set<Elf>, e: Elf, counts: map<Elf, nat>)
      requires Rooted(was) && e !in was && (e.parent != null ==> e.parent in was) && counts.Keys == was
      requires forall d <- was :: d.kind.Archive? ==> counts[d] == |Members(was, d)|
      requires forall d <- was :: d.activations > 0 || (d.kind.Archive? && counts[d] > 0)
      requires forall d <- was :: d.children == counts[d] + if e.parent == d then 1 else 0
      requires e.activations == 1 && e.children == 0
      ensures forall d <- was + {e} :: Waiting(d)
      ensures forall d <- was + {e} :: d.kind.Archive? ==> d.children == |Members(was + {e}, d)|
    {
      hide Members, Rooted;
      CountsAfter(was, e);
    }

    /** Count a newly allocated descriptor among the members of its archive. */
    method Join(e: Elf, a: Elf?)
      requires Valid() && (a != null ==> a in live && a.kind.Archive? && e.depth == a.depth + 1)
      requires e !in live && e !in released && e.parent == a && e.activations == 1 && e.children == 0
      modifies this, a
      ensures Valid() && live == old(live) + {e} && released == old(released)
      ensures forall d <- live :: d.activations == old(d.activations)
    {
      hide OnPath, InOrder, Members, Mapped, Rooted;
      Enlist(live, released, e);
      Stranger(live, e);
      ghost var counts := map d: Elf | d in live :: d.children;
      if a != null { a.children := a.children + 1; }
      Adopted(live, e, counts);
      live := live + {e};
      if e.mapped { files := files + {e}; }
    }

    /** elf_memory, and for a member the link to its archive. */
    method Open(kind: Kind, fd: int, cmd: Cmd, mapped: bool, a: Elf?) returns (e: Elf)
      requires Valid() && (a != null ==> a in live && a.kind.Archive?)
      modifies this, a
      ensures Valid() && fresh(e) && live == old(live) + {e} && released == old(released)
      ensures Opened(e, kind, fd, cmd, a) && e.mapped == mapped
      ensures forall d <- old(live) :: d.activations == old(d.activations)
    {
      e := new Elf(kind, fd, cmd, mapped, a);
      Join(e, a);
    }

    /** _libelf_open_object: an archive cannot be opened for writing. */
    method OpenObject(fd: int, cmd: Cmd, found: Found) returns (e: Elf?)
      requires Valid()
      modifies this, live
      ensures Valid()
      ensures e == null <==> found == Nothing || (cmd == ReadWrite && found.kind.Archive?)
      ensures e == null ==> live == old(live) && old(released) <= released
      ensures e != null ==> fresh(e) && live == old(live) + {e} && released == old(released)
      ensures e != null ==> Opened(e, found.kind, fd, cmd, null) && e.mapped
      ensures forall d <- old(live) :: d.activations == old(d.activations)
    {
      hide InOrder;
      if found == Nothing { return null; }
      e := Open(found.kind, fd, cmd, true, null);
      if cmd == ReadWrite && e.kind.Archive? {
        ghost var shut: Elf := e;
        var left := End(e);
        assert shut.activations == 0;
        LiveIffHeld(shut);
        forall d: Elf | d in old(live) ensures d in live { assert OnPath(d, shut) <==> d == shut; }
        return null;
      }
    }

    ghost predicate Opened(e: Elf, kind: Kind, fd: int, cmd: Cmd, a: Elf?)
      reads e
    {
      e.kind == kind && e.fd == fd && e.cmd == cmd && e.parent == a && e.activations == 1
    }

    /** When elf_begin reaches the file or archive at all. */
    ghost predicate Allowed(versioned: bool, fd: int, cmd: Cmd, a: Elf?) {
      && versioned
      && match cmd {
           case Write | ReadWrite => a == null
           case Read => a == null || (a.fd == fd && a.cmd == Read)
           case NoCmd | OtherCmd => false
         }
    }

    /** elf_begin: a new descriptor, a new member of an archive, or one more activation of a. */
    method Begin(versioned: bool, fd: int, cmd: Cmd, a: Elf?, found: Found) returns (e: Elf?)
      requires Valid() && (a != null ==> a in live)
      modifies this, live
      ensures Valid() && old(released) <= released
      ensures e == null <==>
        || !Allowed(versioned, fd, cmd, a)
        || ((a == null || a.kind.Archive?) && found == Nothing)
        || (cmd == ReadWrite && found.kind.Archive?)
      ensures e == null ==> live == old(live)
      ensures e != null ==> released == old(released)
      ensures e != null && (a == null || a.kind.Archive?) ==>
        && fresh(e) && live == old(live) + {e}
        && Opened(e, if cmd == Write then Object else found.kind, fd, cmd, a)
      ensures e != null && (a == null || a.kind.Archive?) ==> (e.mapped <==> a == null && cmd != Write)
      ensures files == old(files) + if e != null && a == null && cmd != Write then {e} else {}
      ensures e != null && a != null && !a.kind.Archive? ==> e == a && live == old(live)
      ensures forall d <- old(live) :: d.activations == old(d.activations) + if d == e then 1 else 0
    {
      hide InOrder, OnPath;
      if !versioned { return null; }
      match cmd {
        case NoCmd => return null;
        case Write =>
          if a != null || found == Nothing { return null; }
          e := Open(Object, fd, cmd, false, null);
          return;
        case ReadWrite => if a != null { return null; }
        case Read => if a != null && (a.fd != fd || cmd != a.cmd) { return null; }
        case OtherCmd => return null;
      }
      if a == null {
        e := OpenObject(fd, cmd, found);
      } else if a.kind.Archive? {
        if found == Nothing { return null; }
        e := Open(found.kind, fd, cmd, false, a);
      } else {
        e := a;
        e.activations := e.activations + 1;
      }
    }
  }
}
