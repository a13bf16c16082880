/**
 Publishing a database snapshot (tools/backup.py, snapshot and restore).

 The file system is a map that other processes may extend with new files between any two steps of the
 tool.  Every step may raise an error or be the last one before the process dies.
 */
module Backup {
  import opened Wrappers

  datatype Suffix = Main | Wal | Shm | Journal

  /** A database file or one of its sidecars; `Temp` is the fresh name chosen by the tool. */
  datatype Path = Destination(suffix: Suffix) | Temp(suffix: Suffix) | Elsewhere(name: nat)

  /** `Copy` is a finished snapshot of the source that stands alone; `Foreign` is somebody else's file. */
  datatype Content = Blank | Partial | Copy | Checked | Foreign(n: nat)

  type Files = map<Path, Content>

  /** How a step ends. */
  datatype Fate = Fine | Raises | Dies

  /** Other processes, step by step: the files they have just created, and how the tool's step ends. */
  datatype World = World(creates: nat -> Files, fate: nat -> Fate)

  function FateAt(w: World, k: nat): Fate { w.fate(k) }

  function CreatedAt(w: World, k: nat): Files { w.creates(k) }

  /** Why a snapshot ends without a result. */
  datatype Failure = Refused | Raised | Died

  /** How the cleanup ended, and how many of the temporary names it had seen to by then. */
  datatype Swept = Swept(fate: Fate, removed: nat)

  /** `published` says that the destination was linked; `cleanup` how the cleanup ended, if it was reached. */
  datatype Outcome = Outcome(result: Result<(), Failure>, published: bool, cleanup: Option<Swept>)

  const SUFFIXES: seq<Suffix> := [Main, Wal, Shm, Journal]

  lemma IsSuffix(s: Suffix)
    ensures s in SUFFIXES
  {
    match s
    case Main => assert SUFFIXES[0] == s;
    case Wal => assert SUFFIXES[1] == s;
    case Shm => assert SUFFIXES[2] == s;
    case Journal => assert SUFFIXES[3] == s;
  }

  /** No file of `was` is changed or lost in `now`. */
  ghost predicate Kept(was: Files, now: Files) {
    forall p | p in was :: p in now && now[p] == was[p]
  }

  ghost predicate NoTemporary(files: Files) { forall s :: Temp(s) !in files }

  /** Apart from its temporary names and a destination it published, the tool changes nothing. */
  ghost predicate OnlyPublished(files: Files, others: Files, published: bool) {
    && (forall p: Path | !p.Temp? && p != Destination(Main) :: (p in files <==> p in others) && (p in files ==> files[p] == others[p]))
    && (published ==> Destination(Main) in files && files[Destination(Main)] == Checked)
    && (!published ==> (Destination(Main) in files <==> Destination(Main) in others))
    && (!published && Destination(Main) in files ==> files[Destination(Main)] == others[Destination(Main)])
  }

  lemma FilesKept(was: Files, base: Files, files: Files, others: Files, published: bool)
    requires OnlyPublished(was, base, false) && OnlyPublished(files, others, published) && Kept(base, others)
    requires published ==> Destination(Main) !in was
    ensures forall p | p in was && !p.Temp? :: p in files && files[p] == was[p]
  {
  }

  /** Nobody else uses the random name of the temporary file. */
  ghost predicate NameIsPrivate(w: World) {
    forall k, s :: Temp(s) !in CreatedAt(w, k)
  }

  /** The n steps from `from` on end well. */
  ghost predicate Calm(w: World, from: nat, n: nat) {
    forall k: nat | from <= k < from + n :: FateAt(w, k) == Fine
  }

  /** Nobody creates the destination before those steps are over. */
  ghost predicate LeftFree(w: World, from: nat, n: nat) {
    forall k: nat | from <= k < from + n :: Destination(Main) !in CreatedAt(w, k)
  }

  lemma CalmAndThen(w: World, from: nat, m: nat, n: nat)
    ensures Calm(w, from, m + n) <==> Calm(w, from, m) && Calm(w, from + m, n)
    ensures LeftFree(w, from, m + n) <==> LeftFree(w, from, m) && LeftFree(w, from + m, n)
  {
  }

  lemma CalmOnce(w: World, k: nat)
    ensures Calm(w, k, 1) <==> FateAt(w, k) == Fine
    ensures LeftFree(w, k, 1) <==> Destination(Main) !in CreatedAt(w, k)
  {
  }

  lemma CalmFourTimes(w: World, k: nat)
    ensures Calm(w, k, 4) <==> FateAt(w, k) == FateAt(w, k + 1) == FateAt(w, k + 2) == FateAt(w, k + 3) == Fine
    ensures LeftFree(w, k, 4) <==>
            && Destination(Main) !in CreatedAt(w, k) && Destination(Main) !in CreatedAt(w, k + 1)
            && Destination(Main) !in CreatedAt(w, k + 2) && Destination(Main) !in CreatedAt(w, k + 3)
  {
    CalmAndThen(w, k, 1, 3);
    CalmAndThen(w, k + 1, 1, 2);
    CalmAndThen(w, k + 2, 1, 1);
    CalmOnce(w, k);
    CalmOnce(w, k + 1);
    CalmOnce(w, k + 2);
    CalmOnce(w, k + 3);
  }

  /** The process dies in some step from `from` on. */
  ghost predicate SomeStepDies(w: World, from: nat) {
    exists k: nat :: from <= k && FateAt(w, k) == Dies
  }

  /** The steps up to the link, after it, and of the cleanup. */
  const BEFORE_LINK: nat := 6
  const AFTER_LINK: nat := 2
  const CLEANUP: nat := 4

  ghost predicate NoDestination(files: Files) { forall s :: Destination(s) !in files }

  class Directory {
    var files: Files

    /** The files as they would be without the tool. */
    ghost var others: Files

    var step: nat

    constructor (files: Files)
      requires NoTemporary(files)
      ensures this.files == files && others == files && step == 0
    {
      this.files, others, step := files, files, 0;
    }

    ghost predicate Untouched()
      reads this
    {
      NoTemporary(others) && NoTemporary(files) && OnlyPublished(files, others, false)
    }

    /** The tool's share of the directory, beside files of others that were all kept since `base`. */
    ghost predicate Shared(base: Files, published: bool)
      reads this
    {
      NoTemporary(others) && OnlyPublished(files, others, published) && Kept(base, others)
    }

    /** Other processes create files, never replacing one, and the step of the tool ends somehow. */
    method Tick(w: World, ghost base: Files, ghost published: bool) returns (fate: Fate)
      requires NameIsPrivate(w) && Shared(base, published)
      modifies this
      ensures Shared(base, published)
      ensures forall s :: Temp(s) in files <==> Temp(s) in old(files)
      ensures Temp(Main) in files ==> files[Temp(Main)] == old(files)[Temp(Main)]
      ensures fate == FateAt(w, old(step)) && step == old(step) + 1
      ensures Destination(Main) in files <==> Destination(Main) in old(files) || Destination(Main) in CreatedAt(w, old(step))
    {
      files := CreatedAt(w, step) + files;
      others := CreatedAt(w, step) + others;
      fate := FateAt(w, step);
      step := step + 1;
    }

    method Write(suffix: Suffix, content: Content, ghost base: Files, ghost published: bool)
      requires Shared(base, published)
      modifies this`files
      ensures Shared(base, published)
      ensures Temp(suffix) in files && files[Temp(suffix)] == content
      ensures forall s :: Temp(s) in files <==> Temp(s) in old(files) || s == suffix
      ensures Destination(Main) in files <==> Destination(Main) in old(files)
    {
      files := files[Temp(suffix) := content];
    }

    /** The checks before anything is created. */
    method Preflight(w: World, ghost base: Files) returns (fate: Fate)
      requires NameIsPrivate(w) && Shared(base, false) && NoTemporary(files)
      modifies this
      ensures Shared(base, false) && NoTemporary(files)
      ensures fate == Fine <==> NoDestination(old(files)) && Calm(w, old(step), 1)
      ensures (exists s :: Destination(s) in old(files)) ==> fate == Raises && files == old(files)
      ensures fate == Dies ==> SomeStepDies(w, old(step))
      ensures fate == Fine ==> step == old(step) + 1 && (Destination(Main) !in files <==> LeftFree(w, old(step), 1))
    {
      CalmOnce(w, step);
      forall s ensures s in SUFFIXES { IsSuffix(s); }
      hide FateAt, CreatedAt, Calm, LeftFree, OnlyPublished;
      if exists s | s in SUFFIXES :: Destination(s) in files {
        fate := Raises;
      } else {
        assert NoDestination(files);
        fate := Tick(w, base, false);
      }
    }

    /** The copy, its check and its flush. */
    method CopyAndCheck(w: World, sound: bool, ghost base: Files) returns (fate: Fate)
      requires NameIsPrivate(w) && Shared(base, false) && Temp(Main) in files
      modifies this
      ensures Shared(base, false) && Temp(Main) in files
      ensures fate == Fine <==> sound && Calm(w, old(step), 4)
      ensures step >= old(step) && (fate == Dies ==> SomeStepDies(w, old(step)))
      ensures fate == Fine ==> step == old(step) + 4 && files[Temp(Main)] == Checked
      ensures fate == Fine ==> (Destination(Main) !in files <==> Destination(Main) !in old(files) && LeftFree(w, old(step), 4))
    {
      CalmFourTimes(w, step);
      hide FateAt, CreatedAt, Calm, LeftFree, OnlyPublished, NoTemporary, NameIsPrivate, Kept, Shared;
      Write(Main, Partial, base, false);
      Write(Journal, Blank, base, false);
      fate := Tick(w, base, false);
      if fate != Fine { return; }
      Write(Main, Copy, base, false);
      fate := Tick(w, base, false);
      if fate != Fine { return; }
      if !sound {
        fate := Raises;
        return;
      }
      Write(Main, Checked, base, false);
      fate := Tick(w, base, false);
      if fate != Fine { return; }
      fate := Tick(w, base, false);
    }

    /** The link, and what follows it: flush the directory, describe the file. */
    method Publish(w: World, ghost base: Files) returns (fate: Fate)
      requires NameIsPrivate(w) && Shared(base, false)
      requires Destination(Main) !in files && Temp(Main) in files && files[Temp(Main)] == Checked
      modifies this
      ensures Shared(base, true) && Temp(Main) in files
      ensures fate == Fine <==> Calm(w, old(step), AFTER_LINK)
      ensures step >= old(step) && (fate == Dies ==> SomeStepDies(w, old(step)))
      ensures fate == Fine ==> step == old(step) + AFTER_LINK
    {
      CalmAndThen(w, step, 1, 1);
      CalmOnce(w, step);
      CalmOnce(w, step + 1);
      hide FateAt, CreatedAt, Calm, LeftFree, OnlyPublished, NoTemporary, NameIsPrivate, Kept, Shared;
      Link(base);
      fate := Tick(w, base, true);
      if fate != Fine { return; }
      fate := Tick(w, base, true);
    }

    /** The body of the try block: copy and check, then publish. */
    method CopyAndPublish(w: World, sound: bool, ghost base: Files) returns (fate: Fate, published: bool)
      requires NameIsPrivate(w) && Shared(base, false) && Temp(Main) in files
      modifies this
      ensures Shared(base, published) && Temp(Main) in files
      ensures published <==> sound && Destination(Main) !in old(files) && Calm(w, old(step), 4) && LeftFree(w, old(step), 4)
      ensures fate == Fine <==> published && Calm(w, old(step) + 4, AFTER_LINK)
      ensures step >= old(step) && (fate == Dies ==> SomeStepDies(w, old(step)))
      ensures fate == Fine ==> step == old(step) + 4 + AFTER_LINK
    {
      hide FateAt, CreatedAt, Calm, LeftFree, OnlyPublished, NoTemporary, NameIsPrivate, Kept, Shared;
      published := false;
      fate := CopyAndCheck(w, sound, base);
      if fate != Fine { return; }
      if Destination(Main) in files {
        fate := Raises;
        return;
      }
      published := true;
      fate := Publish(w, base);
    }

    /** The hard link: the destination is the checked copy. */
    method Link(ghost base: Files)
      requires Shared(base, false) && Destination(Main) !in files && Temp(Main) in files && files[Temp(Main)] == Checked
      modifies this`files
      ensures Shared(base, true) && forall s :: Temp(s) in files <==> Temp(s) in old(files)
    {
      files := files[Destination(Main) := files[Temp(Main)]];
    }

    /** The finally block: unlink the temporary file and its sidecars, stopping at the first error. */
    method Cleanup(w: World, ghost base: Files, ghost published: bool) returns (end: Swept)
      requires NameIsPrivate(w) && Shared(base, published)
      modifies this
      ensures Shared(base, published)
      ensures end.removed <= |SUFFIXES| && (end.fate == Fine <==> end.removed == |SUFFIXES|)
      ensures end.fate == Fine <==> Calm(w, old(step), CLEANUP)
      ensures end.fate != Fine ==> end.fate == FateAt(w, old(step) + end.removed)
      ensures forall s :: Temp(s) in files <==> Temp(s) in old(files) && s in SUFFIXES[end.removed..]
    {
      hide FateAt, CreatedAt, Calm, LeftFree, OnlyPublished, NoTemporary, NameIsPrivate, Kept, Shared;
      CalmFourTimes(w, step);
      forall s ensures s in SUFFIXES { IsSuffix(s); }
      assert SUFFIXES[0..] == SUFFIXES && SUFFIXES[1..] == [Wal, Shm, Journal] && SUFFIXES[2..] == [Shm, Journal] && SUFFIXES[3..] == [Journal];
      var fate := Unlink(w, Main, base, published);
      if fate != Fine { return Swept(fate, 0); }
      fate := Unlink(w, Wal, base, published);
      if fate != Fine { return Swept(fate, 1); }
      fate := Unlink(w, Shm, base, published);
      if fate != Fine { return Swept(fate, 2); }
      fate := Unlink(w, Journal, base, published);
      if fate != Fine { return Swept(fate, 3); }
      return Swept(Fine, 4);
    }

    /** One unlink with missing_ok. */
    method Unlink(w: World, suffix: Suffix, ghost base: Files, ghost published: bool) returns (fate: Fate)
      requires NameIsPrivate(w) && Shared(base, published)
      modifies this
      ensures Shared(base, published)
      ensures fate == FateAt(w, old(step)) && step == old(step) + 1
      ensures forall s :: Temp(s) in files <==> Temp(s) in old(files) && (fate == Fine ==> s != suffix)
    {
      fate := Tick(w, base, published);
      if fate == Fine {
        files := files - {Temp(suffix)};
      }
    }

    /** The steps of a snapshot. */
    method Attempt(w: World, sound: bool, ghost base: Files) returns (o: Outcome)
      requires NameIsPrivate(w) && Shared(base, false) && NoTemporary(files)
      modifies this
      ensures Shared(base, o.published)
      ensures o.published <==> sound && NoDestination(old(files)) && Calm(w, old(step), BEFORE_LINK) && LeftFree(w, old(step), BEFORE_LINK)
      ensures o.result.Ok? <==> o.published && Calm(w, old(step) + BEFORE_LINK, AFTER_LINK + CLEANUP)
      ensures o.cleanup.Some? && o.cleanup.value.fate == Fine ==> NoTemporary(files)
      ensures o.cleanup.Some? ==>
                && o.cleanup.value.removed <= |SUFFIXES|
                && (forall s | Temp(s) in files :: s in SUFFIXES[o.cleanup.value.removed..])
                && (Temp(Main) in files <==> o.cleanup.value.removed == 0)
      ensures o.cleanup == None && o.result != Err(Died) ==> o.result == Err(Refused) && NoTemporary(files) && !o.published
      ensures o.result == Err(Raised) ==> o.cleanup.Some?
      ensures (exists s :: Destination(s) in old(files)) ==> o == Outcome(Err(Refused), false, None) && files == old(files)
      ensures o.result == Err(Died) ==> SomeStepDies(w, old(step))
    {
      hide FateAt, CreatedAt, Calm, LeftFree, NameIsPrivate, OnlyPublished, Kept, Shared;
      CalmAndThen(w, step, 1, 5);
      CalmAndThen(w, step + 1, 1, 4);
      CalmAndThen(w, step + BEFORE_LINK, AFTER_LINK, CLEANUP);
      CalmOnce(w, step + 1);
      var fate := Preflight(w, base);
      if fate != Fine {
        return Outcome(Err(if fate == Dies then Died else Refused), false, None);
      }
      fate := Tick(w, base, false);
      if fate == Raises {
        return Outcome(Err(Refused), false, None);
      }
      if fate == Dies {
        return Outcome(Err(Died), false, None);
      }
      Write(Main, Blank, base, false);
      var published;
      fate, published := CopyAndPublish(w, sound, base);
      if fate == Dies {
        return Outcome(Err(Died), published, None);
      }
      var end := Cleanup(w, base, published);
      if end.fate == Dies {
        return Outcome(Err(Died), published, Some(end));
      }
      if fate == Raises || end.fate == Raises {
        return Outcome(Err(Raised), published, Some(end));
      }
      return Outcome(Ok(()), published, Some(end));
    }

    /**
     A snapshot, whatever fails and whatever others create meanwhile: existing files are kept; the destination is
     published exactly when it was free up to the link, the copy is sound and no step before the link failed; the
     call succeeds exactly when no later step failed either; a cleanup that ended leaves no temporary file, and one
     that failed leaves the database file at most if it was the first to be removed.
     */
    method Snapshot(w: World, sound: bool) returns (o: Outcome)
      requires NameIsPrivate(w) && Untouched()
      modifies this
      ensures OnlyPublished(files, others, o.published)
      ensures forall p | p in old(files) && !p.Temp? :: p in files && files[p] == old(files)[p]
      ensures o.published <==> sound && NoDestination(old(files)) && Calm(w, old(step), BEFORE_LINK) && LeftFree(w, old(step), BEFORE_LINK)
      ensures o.result.Ok? <==> o.published && Calm(w, old(step) + BEFORE_LINK, AFTER_LINK + CLEANUP)
      ensures o.cleanup.Some? && o.cleanup.value.fate == Fine ==> NoTemporary(files)
      ensures o.cleanup.Some? ==>
                && o.cleanup.value.removed <= |SUFFIXES|
                && (forall s | Temp(s) in files :: s in SUFFIXES[o.cleanup.value.removed..])
                && (Temp(Main) in files <==> o.cleanup.value.removed == 0)
      ensures o.cleanup == None && o.result != Err(Died) ==> o.result == Err(Refused) && NoTemporary(files) && !o.published
      ensures o.result == Err(Raised) ==> o.cleanup.Some?
      ensures (exists s :: Destination(s) in old(files)) ==> o == Outcome(Err(Refused), false, None) && files == old(files)
      ensures o.result == Err(Died) ==> SomeStepDies(w, old(step))
    {
      ghost var was, base := files, others;
      o := Attempt(w, sound, base);
      FilesKept(was, base, files, others, o.published);
    }

    /** A restore is a snapshot into a new file, after the operator's word that the service is stopped. */
    method Restore(w: World, sound: bool, appStopped: bool) returns (o: Outcome)
      requires NameIsPrivate(w) && Untouched()
      modifies this
      ensures !appStopped ==> o == Outcome(Err(Refused), false, None) && files == old(files)
      ensures OnlyPublished(files, others, o.published)
      ensures forall p | p in old(files) && !p.Temp? :: p in files && files[p] == old(files)[p]
      ensures o.published <==> appStopped && sound && NoDestination(old(files))
                               && Calm(w, old(step), BEFORE_LINK) && LeftFree(w, old(step), BEFORE_LINK)
      ensures o.result.Ok? <==> o.published && Calm(w, old(step) + BEFORE_LINK, AFTER_LINK + CLEANUP)
      ensures o.cleanup.Some? && o.cleanup.value.fate == Fine ==> NoTemporary(files)
      ensures (exists s :: Destination(s) in old(files)) ==> o == Outcome(Err(Refused), false, None) && files == old(files)
      ensures o.result == Err(Died) ==> SomeStepDies(w, old(step))
    {
      if !appStopped {
        return Outcome(Err(Refused), false, None);
      }
      o := Snapshot(w, sound);
    }
  }
}
