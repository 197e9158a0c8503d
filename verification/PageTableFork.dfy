/** What `duplicate_recursive` does to the table memory, one subtree at a time. */
module PageTableFork {
  import opened Pages
  import opened Digits
  import opened PageTable

  /** `q` is a leaf table of address space `s` below prefix `prefix` of level `level`. */
  ghost predicate InSub(o: Owners, q: nat, s: nat, level: nat, prefix: nat)
    requires level >= 1
  {
    q in o && o[q].space == s && o[q].level == 1 && Up(level - 1, o[q].prefix) == prefix
  }

  /** From memory 0 to memory 1 only leaf tables of the parent's subtree were rewritten, and every
      new table belongs to the child `c`. */
  ghost predicate DupFrame(t0: Tables, o0: Owners, t1: Tables, o1: Owners, s: nat, c: nat, level: nat, prefix: nat)
    requires level >= 1
  {
    && Wf(t0, o0) && Wf(t1, o1)
    && t0.Keys <= t1.Keys
    && (forall q :: q in t0 ==> o1[q] == o0[q])
    && (forall q :: q in t1 && q !in t0 ==> o1[q].space == c && (o1[q].level < LEVELS || (level == LEVELS && q == c)))
    && (forall q :: q in t0 && !InSub(o0, q, s, level, prefix) ==> t1[q] == t0[q])
  }

  ghost predicate Covered(level: nat, prefix: nat, v: nat) { v < ALL_PAGES && Up(level, v) == prefix }

  /** Below slot `lim` parent table `p` and child table `n` both translate to the downgraded
      entries; from `lim` on the parent is as it was. */
  ghost predicate DupAt(t0: Tables, t1: Tables, p: nat, n: nat, level: nat, lim: nat, v: nat)
    requires level >= 1
  {
    if Index(level, v) < lim
    then Entry(t1, p, level, v) == Entry(t1, n, level, v) == Dup(Entry(t0, p, level, v))
    else Entry(t1, p, level, v) == Entry(t0, p, level, v)
  }

  ghost predicate DupView(t0: Tables, t1: Tables, p: nat, n: nat, level: nat, prefix: nat, lim: nat)
    requires level >= 1
  {
    forall v :: Covered(level, prefix, v) ==> DupAt(t0, t1, p, n, level, lim, v)
  }

  /** The pages `v` below the first `lim` slots of `p` that map physical page `f`. */
  ghost function Uses(t: Tables, p: nat, level: nat, prefix: nat, lim: nat, f: nat): set<nat>
    requires level >= 1
  {
    set v | 0 <= v < ALL_PAGES && Up(level, v) == prefix && Index(level, v) < lim
            && Entry(t, p, level, v) != ZERO_PTE && Entry(t, p, level, v).frame == f
  }

  // ------------------------------------------------------------------ one slot of an inner table

  /** Writing a slot of table `n` does not disturb walks that cannot pass through `n`. */
  lemma {:induction false} WriteElsewhere(t: Tables, o: Owners, n: nat, i: nat, r: Pte, x: nat, s: nat, k: nat, v: nat)
    requires Wf(t, o) && n in t && i < |t[n]| && On(t, o, x, s, k, v)
    requires o[n].level > k || (o[n].space != s && o[n].space != SpaceAt(s, k, v))
    requires o[n].level >= 2
    ensures Entry(t[n := t[n][i := r]], x, k, v) == Entry(t, x, k, v)
    decreases k
  {
    assert TableOk(t, o, x);
    if k > 1 && t[x][Index(k, v)] != ZERO_PTE {
      LinkOn(t, o, x, s, k, v);
      WriteElsewhere(t, o, n, i, r, t[x][Index(k, v)].frame, SpaceAt(s, k, v), k - 1, v);
    }
  }

  /** Seen from `n` itself, the write replaces what is below slot `i` and nothing else. */
  lemma WriteHere(t: Tables, o: Owners, n: nat, i: nat, r: Pte, c: nat, k: nat, v: nat)
    requires Wf(t, o) && On(t, o, n, c, k, v) && k >= 2 && i < FANOUT && i < |t[n]|
    requires (k == LEVELS ==> Index(k, v) < USER_SLOTS)
    requires r != ZERO_PTE && (Index(k, v) == i ==> On(t, o, r.frame, c, k - 1, v))
    ensures Entry(t[n := t[n][i := r]], n, k, v)
         == if Index(k, v) == i then Entry(t, r.frame, k - 1, v) else Entry(t, n, k, v)
  {
    assert TableOk(t, o, n);
    var j := Index(k, v);
    if j == i {
      WriteElsewhere(t, o, n, i, r, r.frame, c, k - 1, v);
    } else if t[n][j] != ZERO_PTE {
      LinkOn(t, o, n, c, k, v);
      WriteElsewhere(t, o, n, i, r, t[n][j].frame, c, k - 1, v);
    }
  }

  /** A duplicated subtree leaves every translation outside that subtree alone. */
  lemma FrameEntry(t0: Tables, o0: Owners, t1: Tables, o1: Owners, s: nat, c: nat, level: nat, prefix: nat,
                   x: nat, xs: nat, k: nat, v: nat)
    requires level >= 1 && DupFrame(t0, o0, t1, o1, s, c, level, prefix) && On(t0, o0, x, xs, k, v)
    requires SpaceAt(xs, k, v) != s || Up(level, v) != prefix
    ensures Entry(t1, x, k, v) == Entry(t0, x, k, v)
    ensures On(t1, o1, x, xs, k, v)
  {
    forall q | q in t0 && o0[q] == Place(SpaceAt(xs, k, v), 1, Up(1, v)) ensures t1[q] == t0[q] {
      UpUp(level, v);
    }
    SameEntry(t0, o0, t1, x, xs, k, v);
  }

  lemma {:induction false} UpUp(level: nat, v: nat)
    requires level >= 1
    ensures Up(level - 1, Up(1, v)) == Up(level, v)
    decreases level
  {
    if level > 1 { UpUp(level - 1, v); }
  }

  lemma FrameCompose(t0: Tables, o0: Owners, t1: Tables, o1: Owners, t2: Tables, o2: Owners,
                     s: nat, c: nat, level: nat, prefix: nat, i: nat)
    requires 2 <= level <= LEVELS && i < FANOUT && s != c
    requires DupFrame(t0, o0, t1, o1, s, c, level, prefix)
    requires DupFrame(t1, o1, t2, o2, s, c, level - 1, Sub(prefix, i))
    ensures DupFrame(t0, o0, t2, o2, s, c, level, prefix)
  {
    forall q | q in t2 && q !in t0 ensures o2[q].space == c && (o2[q].level < LEVELS || (level == LEVELS && q == c)) {
      if q in t1 { assert o2[q] == o1[q]; }
    }
    forall q | q in t0 && !InSub(o0, q, s, level, prefix) ensures t2[q] == t0[q] {
      assert !InSub(o1, q, s, level - 1, Sub(prefix, i));
    }
  }

  /** Writing a slot of the child's own table keeps the frame. */
  lemma FrameWrite(t0: Tables, o0: Owners, t1: Tables, o1: Owners, s: nat, c: nat, level: nat, prefix: nat, n: nat,
                   i: nat, r: Pte)
    requires level >= 1 && DupFrame(t0, o0, t1, o1, s, c, level, prefix)
    requires n in t1 && n !in t0 && i < FANOUT && TableOk(t1, o1, n) && r.present
    requires o1[n].level > 1 ==> r.frame in t1 && o1[r.frame] == ChildPlace(o1[n], i)
    ensures DupFrame(t0, o0, t1[n := t1[n][i := r]], o1, s, c, level, prefix)
  {
    var t2 := t1[n := t1[n][i := r]];
    forall q | q in t2 ensures TableOk(t2, o1, q) {
      assert TableOk(t1, o1, q);
      forall j | 0 <= j < FANOUT ensures LinkOk(t2, o1, q, j) { assert LinkOk(t1, o1, q, j); }
    }
  }

  // ------------------------------------------------------------------ one slot of the loop

  /** How many slots the copying loop visits: of a root only the user half. */
  function Width(level: nat): nat { if level == LEVELS then USER_SLOTS else FANOUT }

  ghost predicate EmptyFrom(s: seq<Pte>, i: nat, w: nat) { forall j :: i <= j < w ==> j < |s| && s[j] == ZERO_PTE }

  /** The state of the copying loop before slot `i`: `n` is the child's table being filled. */
  ghost predicate Copying(t0: Tables, o0: Owners, t: Tables, o: Owners, p: nat, n: nat, s: nat, c: nat,
                          level: nat, prefix: nat, i: nat)
  {
    && 1 <= level <= LEVELS && s != c && s != KERNEL && c != KERNEL
    && (level == LEVELS ==> p == s && n == c && prefix == 0)
    && DupFrame(t0, o0, t, o, s, c, level, prefix)
    && p in t0 && o0[p] == Place(s, level, prefix)
    && n in t && n !in t0 && o[n] == Place(c, level, prefix)
    && EmptyFrom(t[n], i, Width(level))
    && DupView(t0, t, p, n, level, prefix, i)
  }

  /** A slot of an inner table whose subtree has just been duplicated into `r`. */
  lemma CopyInnerSlot(t0: Tables, o0: Owners, t: Tables, o: Owners, t2: Tables, o2: Owners,
                      p: nat, n: nat, s: nat, c: nat, level: nat, prefix: nat, i: nat, r: Pte)
    requires Copying(t0, o0, t, o, p, n, s, c, level, prefix, i) && level >= 2 && i < Width(level)
    requires |t[p]| == FANOUT && t[p][i] != ZERO_PTE
    requires DupFrame(t, o, t2, o2, s, c, level - 1, Sub(prefix, i))
    requires DupView(t, t2, t[p][i].frame, r.frame, level - 1, Sub(prefix, i), FANOUT)
    requires r.present && r.frame in t2 && o2[r.frame] == Place(c, level - 1, Sub(prefix, i))
    ensures n in t2 && |t2[n]| == FANOUT && n in o2 && o2[n] == Place(c, level, prefix)
    ensures Copying(t0, o0, t2[n := t2[n][i := r]], o2, p, n, s, c, level, prefix, i + 1)
  {
    hide Wf, TableOk, InSub, DupFrame, DupAt, Covered;
    InnerFacts(t0, o0, t, o, t2, o2, p, n, s, c, level, prefix, i, r);
    FrameCompose(t0, o0, t, o, t2, o2, s, c, level, prefix, i);
    FrameWrite(t0, o0, t2, o2, s, c, level, prefix, n, i, r);
    var t3 := t2[n := t2[n][i := r]];
    forall v | Covered(level, prefix, v) ensures DupAt(t0, t3, p, n, level, i + 1, v) {
      CopyInnerAt(t0, o0, t, o, t2, o2, p, n, s, c, level, prefix, i, r, v);
    }
  }

  lemma InnerFacts(t0: Tables, o0: Owners, t: Tables, o: Owners, t2: Tables, o2: Owners,
                   p: nat, n: nat, s: nat, c: nat, level: nat, prefix: nat, i: nat, r: Pte)
    requires Copying(t0, o0, t, o, p, n, s, c, level, prefix, i) && level >= 2 && i < Width(level)
    requires DupFrame(t, o, t2, o2, s, c, level - 1, Sub(prefix, i))
    requires r.frame in t2 && o2[r.frame] == Place(c, level - 1, Sub(prefix, i))
    ensures r.frame in o2
    ensures n in t2 && n in o2 && t2[n] == t[n] && |t2[n]| == FANOUT && o2[n] == Place(c, level, prefix)
    ensures TableOk(t2, o2, n)
    ensures o2[r.frame] == ChildPlace(o2[n], i)
  {
    assert TableOk(t, o, n) && TableOk(t2, o2, n);
  }

  lemma CopyInnerAt(t0: Tables, o0: Owners, t: Tables, o: Owners, t2: Tables, o2: Owners,
                    p: nat, n: nat, s: nat, c: nat, level: nat, prefix: nat, i: nat, r: Pte, v: nat)
    requires Copying(t0, o0, t, o, p, n, s, c, level, prefix, i) && level >= 2 && i < Width(level)
    requires |t[p]| == FANOUT && t[p][i] != ZERO_PTE && n in t2 && |t2[n]| == FANOUT && t2[n] == t[n]
    requires DupFrame(t, o, t2, o2, s, c, level - 1, Sub(prefix, i))
    requires DupView(t, t2, t[p][i].frame, r.frame, level - 1, Sub(prefix, i), FANOUT)
    requires r.present && r.frame in t2 && o2[r.frame] == Place(c, level - 1, Sub(prefix, i))
    requires Covered(level, prefix, v)
    ensures DupAt(t0, t2[n := t2[n][i := r]], p, n, level, i + 1, v)
  {
    hide Entry, Wf, TableOk, InSub;
    InnerWrite(t0, o0, t, o, t2, o2, p, n, s, c, level, prefix, i, r, v);
    InnerWalk(t0, o0, t, o, t2, o2, p, n, s, c, level, prefix, i, v);
    assert DupAt(t0, t, p, n, level, i, v);
    if Index(level, v) == i {
      assert Covered(level - 1, Sub(prefix, i), v);
      assert DupAt(t, t2, t[p][i].frame, r.frame, level - 1, FANOUT, v);
    }
  }

  /** What the write of slot `i` of `n` does to the walks from `p` and `n`. */
  lemma InnerWrite(t0: Tables, o0: Owners, t: Tables, o: Owners, t2: Tables, o2: Owners,
                   p: nat, n: nat, s: nat, c: nat, level: nat, prefix: nat, i: nat, r: Pte, v: nat)
    requires Copying(t0, o0, t, o, p, n, s, c, level, prefix, i) && level >= 2 && i < Width(level)
    requires n in t2 && |t2[n]| == FANOUT
    requires DupFrame(t, o, t2, o2, s, c, level - 1, Sub(prefix, i))
    requires r.present && r.frame in t2 && o2[r.frame] == Place(c, level - 1, Sub(prefix, i))
    requires Covered(level, prefix, v)
    ensures var t3 := t2[n := t2[n][i := r]];
      && Entry(t3, p, level, v) == Entry(t2, p, level, v)
      && (Index(level, v) <= i ==>
            Entry(t3, n, level, v)
            == if Index(level, v) == i then Entry(t2, r.frame, level - 1, v) else Entry(t2, n, level, v))
  {
    hide Entry, TableOk, InSub, DupView, EmptyFrom;
    WriteElsewhere(t2, o2, n, i, r, p, s, level, v);
    if Index(level, v) <= i { WriteHere(t2, o2, n, i, r, c, level, v); }
  }

  /** What duplicating the subtree below slot `i` does to them. */
  lemma InnerWalk(t0: Tables, o0: Owners, t: Tables, o: Owners, t2: Tables, o2: Owners,
                  p: nat, n: nat, s: nat, c: nat, level: nat, prefix: nat, i: nat, v: nat)
    requires Copying(t0, o0, t, o, p, n, s, c, level, prefix, i) && level >= 2 && i < Width(level)
    requires |t[p]| == FANOUT && t[p][i] != ZERO_PTE
    requires DupFrame(t, o, t2, o2, s, c, level - 1, Sub(prefix, i))
    requires Covered(level, prefix, v)
    ensures if Index(level, v) == i
            then Entry(t2, p, level, v) == Entry(t2, t[p][i].frame, level - 1, v)
                 && Entry(t, p, level, v) == Entry(t, t[p][i].frame, level - 1, v)
            else Entry(t2, p, level, v) == Entry(t, p, level, v) && Entry(t2, n, level, v) == Entry(t, n, level, v)
  {
    hide DupView, EmptyFrom;
    if Index(level, v) == i {
      assert t2[p] == t[p] by { assert !InSub(o, p, s, level - 1, Sub(prefix, i)); }
    } else {
      hide Entry;
      FrameEntry(t, o, t2, o2, s, c, level - 1, Sub(prefix, i), p, s, level, v);
      FrameEntry(t, o, t2, o2, s, c, level - 1, Sub(prefix, i), n, c, level, v);
    }
  }

  /** Rewriting a slot of a leaf table of the duplicated subtree keeps the frame. */
  lemma FrameLeaf(t0: Tables, o0: Owners, t: Tables, o: Owners, s: nat, c: nat, level: nat, prefix: nat, p: nat, i: nat,
                  e: Pte)
    requires level >= 1 && DupFrame(t0, o0, t, o, s, c, level, prefix) && InSub(o0, p, s, level, prefix)
    requires p in t0 && i < FANOUT && |t[p]| == FANOUT && (e != ZERO_PTE ==> e.present)
    ensures DupFrame(t0, o0, t[p := t[p][i := e]], o, s, c, level, prefix)
  {
    assert TableOk(t, o, p);
    PutLeafWf(t, o, p, i, e);
  }

  /** A slot of a leaf table: parent and child get the same downgraded entry. */
  lemma CopyLeafSlot(t0: Tables, o0: Owners, t: Tables, o: Owners, p: nat, n: nat, s: nat, c: nat, prefix: nat, i: nat)
    requires Copying(t0, o0, t, o, p, n, s, c, 1, prefix, i) && i < FANOUT
    requires |t[p]| == FANOUT && |t[n]| == FANOUT && t[p][i].present
    ensures var d := Dup(t[p][i]);
      Copying(t0, o0, t[n := t[n][i := d]][p := t[p][i := d]], o, p, n, s, c, 1, prefix, i + 1)
  {
    var d := Dup(t[p][i]);
    assert TableOk(t, o, n) && TableOk(t, o, p);
    var t2 := t[n := t[n][i := d]];
    FrameWrite(t0, o0, t, o, s, c, 1, prefix, n, i, d);
    FrameLeaf(t0, o0, t2, o, s, c, 1, prefix, p, i, d);
    CopyLeafView(t0, t, p, n, prefix, i);
  }

  lemma CopyLeafView(t0: Tables, t: Tables, p: nat, n: nat, prefix: nat, i: nat)
    requires p in t && n in t && p != n && |t[p]| == FANOUT && |t[n]| == FANOUT && i < FANOUT
    requires DupView(t0, t, p, n, 1, prefix, i)
    ensures var d := Dup(t[p][i]); DupView(t0, t[n := t[n][i := d]][p := t[p][i := d]], p, n, 1, prefix, i + 1)
  {
    var d := Dup(t[p][i]);
    forall v | Covered(1, prefix, v) ensures DupAt(t0, t[n := t[n][i := d]][p := t[p][i := d]], p, n, 1, i + 1, v) {
      assert DupAt(t0, t, p, n, 1, i, v);
    }
  }

  /** An empty slot needs no work. */
  lemma CopyEmptySlot(t0: Tables, o0: Owners, t: Tables, o: Owners, p: nat, n: nat, s: nat, c: nat, level: nat,
                      prefix: nat, i: nat)
    requires Copying(t0, o0, t, o, p, n, s, c, level, prefix, i) && i < Width(level)
    requires |t[p]| == FANOUT && |t[n]| == FANOUT && t[p][i] == ZERO_PTE
    ensures Copying(t0, o0, t, o, p, n, s, c, level, prefix, i + 1)
  {
    forall v | Covered(level, prefix, v) ensures DupAt(t0, t, p, n, level, i + 1, v) {
      assert DupAt(t0, t, p, n, level, i, v);
    }
  }

  // ------------------------------------------------------------------ counting

  /** The uses below `i + 1` slots are the uses below `i` slots and the uses of slot `i`. */
  lemma UsesInner(t: Tables, p: nat, level: nat, prefix: nat, i: nat, f: nat)
    requires level >= 2 && p in t && |t[p]| == FANOUT && i < FANOUT
    ensures Uses(t, p, level, prefix, i + 1, f) ==
            Uses(t, p, level, prefix, i, f)
            + if t[p][i] == ZERO_PTE then {} else Uses(t, t[p][i].frame, level - 1, Sub(prefix, i), FANOUT, f)
    ensures t[p][i] != ZERO_PTE ==>
              Uses(t, p, level, prefix, i, f) !! Uses(t, t[p][i].frame, level - 1, Sub(prefix, i), FANOUT, f)
  {
    forall v: nat ensures Index(level, v) == i && Up(level, v) == prefix <==> Up(level - 1, v) == Sub(prefix, i) { }
  }

  lemma UsesLeaf(t: Tables, p: nat, prefix: nat, i: nat, f: nat)
    requires p in t && |t[p]| == FANOUT && i < FANOUT && Sub(prefix, i) < ALL_PAGES
    ensures Uses(t, p, 1, prefix, i + 1, f) ==
            Uses(t, p, 1, prefix, i, f) + if t[p][i] != ZERO_PTE && t[p][i].frame == f then {Sub(prefix, i)} else {}
    ensures Sub(prefix, i) !in Uses(t, p, 1, prefix, i, f)
  {
    forall v: nat ensures Index(1, v) == i && Up(1, v) == prefix <==> v == Sub(prefix, i) { }
  }

  /** Prefixes that occur at a level. */
  function Cap(level: nat): nat {
    match level
    case 0 => ALL_PAGES
    case 1 => 0x800_0000
    case 2 => 0x4_0000
    case 3 => 0x200
    case _ => 1
  }

  /** A new empty table for the child starts the copy. */
  lemma CopyStart(t0: Tables, o0: Owners, p: nat, n: nat, s: nat, c: nat, level: nat, prefix: nat)
    requires Wf(t0, o0) && 1 <= level < LEVELS && s != c && s != KERNEL && c != KERNEL
    requires p in t0 && o0[p] == Place(s, level, prefix) && n !in t0 && n != NULL_FRAME
    ensures Copying(t0, o0, t0[n := EmptyTable()], o0[n := Place(c, level, prefix)], p, n, s, c, level, prefix, 0)
  {
    var t, o := t0[n := EmptyTable()], o0[n := Place(c, level, prefix)];
    forall q | q in t ensures TableOk(t, o, q) {
      if q != n { assert TableOk(t0, o0, q); }
      forall j | 0 <= j < FANOUT ensures LinkOk(t, o, q, j) { if q != n { assert LinkOk(t0, o0, q, j); } }
    }
    forall v | Covered(level, prefix, v) ensures DupAt(t0, t, p, n, level, 0, v) {
      SameEntry(t0, o0, t, p, s, level, v);
    }
  }

  lemma CoveredChild(level: nat, prefix: nat, i: nat, v: nat)
    requires level >= 1 && i < FANOUT && Covered(level - 1, Sub(prefix, i), v)
    ensures Covered(level, prefix, v) && Index(level, v) == i
  {
  }

  lemma EntryStep(t: Tables, p: nat, level: nat, v: nat)
    requires level >= 2 && p in t && |t[p]| == FANOUT && t[p][Index(level, v)] != ZERO_PTE
    ensures Entry(t, p, level, v) == Entry(t, t[p][Index(level, v)].frame, level - 1, v)
  {
  }

  /** During the copy the slots still to come are as they were at the start. */
  lemma PendingSlot(t0: Tables, o0: Owners, t: Tables, o: Owners, p: nat, n: nat, s: nat, c: nat, level: nat,
                    prefix: nat, i: nat)
    requires Copying(t0, o0, t, o, p, n, s, c, level, prefix, i) && i < FANOUT && prefix < Cap(level)
    ensures p in t0 && p in t && n in t && p != n
    ensures |t0[p]| == FANOUT && |t[p]| == FANOUT && |t[n]| == FANOUT && t[p][i] == t0[p][i]
    ensures level == 1 ==> t[p][i] == Entry(t0, p, 1, Sub(prefix, i))
  {
    assert TableOk(t0, o0, p) && TableOk(t, o, p) && TableOk(t, o, n);
    if level == 1 {
      var v := Sub(prefix, i);
      assert DupView(t0, t, p, n, 1, prefix, i);
      assert Covered(1, prefix, v);
      assert DupAt(t0, t, p, n, 1, i, v);
    } else {
      assert !InSub(o0, p, s, level, prefix);
    }
  }

  /** ... and so is everything they translate. */
  lemma PendingEntry(t0: Tables, o0: Owners, t: Tables, o: Owners, p: nat, n: nat, s: nat, c: nat, level: nat,
                     prefix: nat, i: nat, v: nat)
    requires Copying(t0, o0, t, o, p, n, s, c, level, prefix, i) && i < FANOUT && prefix < Cap(level) && level >= 2
    requires |t[p]| == FANOUT && t[p][i] != ZERO_PTE && Covered(level - 1, Sub(prefix, i), v)
    ensures |t0[p]| == FANOUT && Covered(level, prefix, v)
    ensures Entry(t, t[p][i].frame, level - 1, v) == Entry(t0, t0[p][i].frame, level - 1, v) == Entry(t0, p, level, v)
  {
    PendingSlot(t0, o0, t, o, p, n, s, c, level, prefix, i);
    CoveredChild(level, prefix, i, v);
    assert DupView(t0, t, p, n, level, prefix, i);
    assert DupAt(t0, t, p, n, level, i, v);
    EntryStep(t0, p, level, v);
    EntryStep(t, p, level, v);
  }

  lemma UsesPending(t0: Tables, o0: Owners, t: Tables, o: Owners, p: nat, n: nat, s: nat, c: nat, level: nat,
                    prefix: nat, i: nat, f: nat)
    requires Copying(t0, o0, t, o, p, n, s, c, level, prefix, i) && i < FANOUT && prefix < Cap(level) && level >= 2
    requires |t[p]| == FANOUT && t[p][i] != ZERO_PTE
    ensures |t0[p]| == FANOUT
    ensures Uses(t, t[p][i].frame, level - 1, Sub(prefix, i), FANOUT, f)
         == Uses(t0, t0[p][i].frame, level - 1, Sub(prefix, i), FANOUT, f)
  {
    PendingSlot(t0, o0, t, o, p, n, s, c, level, prefix, i);
    var a := Uses(t, t[p][i].frame, level - 1, Sub(prefix, i), FANOUT, f);
    var b := Uses(t0, t0[p][i].frame, level - 1, Sub(prefix, i), FANOUT, f);
    forall v: nat ensures v in a <==> v in b {
      if Covered(level - 1, Sub(prefix, i), v) { PendingEntry(t0, o0, t, o, p, n, s, c, level, prefix, i, v); }
    }
  }

  /** Every page mapped below the first `lim` slots has been held once per mapping. */
  ghost predicate Counted(r0: map<nat, nat>, r1: map<nat, nat>, t0: Tables, p: nat, level: nat, prefix: nat, lim: nat)
    requires level >= 1
  {
    r1.Keys == r0.Keys && forall f :: f in r0 ==> r1[f] == r0[f] + |Uses(t0, p, level, prefix, lim, f)|
  }

  /** Every page mapped in the subtree is in state TAKEN. */
  ghost predicate FramesTaken(r: map<nat, nat>, t: Tables, p: nat, level: nat, prefix: nat)
    requires level >= 1
  {
    forall v :: Covered(level, prefix, v) && Index(level, v) < Width(level) ==> TakenAt(r, t, p, level, v)
  }

  ghost predicate TakenAt(r: map<nat, nat>, t: Tables, p: nat, level: nat, v: nat)
    requires level >= 1
  {
    Entry(t, p, level, v) == ZERO_PTE || Entry(t, p, level, v).frame in r
  }

  lemma CountStart(r0: map<nat, nat>, t0: Tables, p: nat, level: nat, prefix: nat)
    requires level >= 1
    ensures Counted(r0, r0, t0, p, level, prefix, 0)
  {
    forall f | f in r0 ensures |Uses(t0, p, level, prefix, 0, f)| == 0 {
      assert Uses(t0, p, level, prefix, 0, f) == {};
    }
  }

  lemma CountInnerSlot(r0: map<nat, nat>, r1: map<nat, nat>, r2: map<nat, nat>, t0: Tables, o0: Owners, t: Tables,
                       o: Owners,
                       p: nat, n: nat, s: nat, c: nat, level: nat, prefix: nat, i: nat)
    requires Copying(t0, o0, t, o, p, n, s, c, level, prefix, i) && i < FANOUT && prefix < Cap(level) && level >= 2
    requires |t[p]| == FANOUT && t[p][i] != ZERO_PTE
    requires Counted(r0, r1, t0, p, level, prefix, i)
    requires Counted(r1, r2, t, t[p][i].frame, level - 1, Sub(prefix, i), FANOUT)
    ensures Counted(r0, r2, t0, p, level, prefix, i + 1)
  {
    PendingSlot(t0, o0, t, o, p, n, s, c, level, prefix, i);
    forall f | f in r0 ensures r2[f] == r0[f] + |Uses(t0, p, level, prefix, i + 1, f)| {
      UsesPending(t0, o0, t, o, p, n, s, c, level, prefix, i, f);
      UsesInner(t0, p, level, prefix, i, f);
    }
  }

  lemma CountLeafSlot(r0: map<nat, nat>, r1: map<nat, nat>, t0: Tables, p: nat, prefix: nat, i: nat, e: Pte)
    requires p in t0 && |t0[p]| == FANOUT && i < FANOUT && prefix < Cap(1) && t0[p][i] == e && e != ZERO_PTE
    requires e.frame in r1
    requires Counted(r0, r1, t0, p, 1, prefix, i)
    ensures Counted(r0, r1[e.frame := r1[e.frame] + 1], t0, p, 1, prefix, i + 1)
  {
    forall f | f in r0 ensures r1[e.frame := r1[e.frame] + 1][f] == r0[f] + |Uses(t0, p, 1, prefix, i + 1, f)| {
      UsesLeaf(t0, p, prefix, i, f);
    }
  }

  lemma CountEmptySlot(r0: map<nat, nat>, r1: map<nat, nat>, t0: Tables, p: nat, level: nat, prefix: nat, i: nat)
    requires level >= 1 && p in t0 && |t0[p]| == FANOUT && i < FANOUT && prefix < Cap(level) && t0[p][i] == ZERO_PTE
    requires Counted(r0, r1, t0, p, level, prefix, i)
    ensures Counted(r0, r1, t0, p, level, prefix, i + 1)
  {
    forall f | f in r0 ensures r1[f] == r0[f] + |Uses(t0, p, level, prefix, i + 1, f)| {
      if level == 1 { UsesLeaf(t0, p, prefix, i, f); } else { UsesInner(t0, p, level, prefix, i, f); }
    }
  }

  /** What the recursive call on slot `i` may rely on. */
  lemma ChildTaken(r0: map<nat, nat>, r: map<nat, nat>, t0: Tables, o0: Owners, t: Tables, o: Owners,
                   p: nat, n: nat, s: nat, c: nat, level: nat, prefix: nat, i: nat)
    requires Copying(t0, o0, t, o, p, n, s, c, level, prefix, i) && i < Width(level) && prefix < Cap(level)
    requires level >= 2
    requires |t[p]| == FANOUT && t[p][i] != ZERO_PTE && Counted(r0, r, t0, p, level, prefix, i)
    requires FramesTaken(r0, t0, p, level, prefix)
    ensures FramesTaken(r, t, t[p][i].frame, level - 1, Sub(prefix, i))
    ensures t[p][i].frame in t && o[t[p][i].frame] == Place(s, level - 1, Sub(prefix, i))
  {
    assert TableOk(t, o, p);
    assert LinkOk(t, o, p, i);
    var below := level - 1;
    forall v | Covered(below, Sub(prefix, i), v) ensures TakenAt(r, t, t[p][i].frame, below, v) {
      PendingEntry(t0, o0, t, o, p, n, s, c, level, prefix, i, v);
      assert TakenAt(r0, t0, p, level, v);
    }
  }

  /** When the loop is done the subtree has been duplicated. */
  lemma CopyDone(t0: Tables, o0: Owners, t: Tables, o: Owners, p: nat, n: nat, s: nat, c: nat, level: nat, prefix: nat)
    requires Copying(t0, o0, t, o, p, n, s, c, level, prefix, Width(level))
    ensures level >= 1 && DupFrame(t0, o0, t, o, s, c, level, prefix)
    ensures DupView(t0, t, p, n, level, prefix, Width(level))
    ensures n in t && n in o && o[n] == Place(c, level, prefix)
  {
  }
}
