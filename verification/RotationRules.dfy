/** Which failure artifacts a rotation moves, told from the file names as they are spelled. */
module RotationRules {
  import opened Text
  import opened Numbering
  import opened Rotation

  /** The file of a test with this suffix: the name's first dot parts the two. */
  predicate IsFileOf(name: string, base: string, suffix: string) {
    name == base + "." + suffix && forall i :: 0 <= i < |base| ==> base[i] != '.'
  }

  predicate IsCoreOf(suffix: string, hash: string) {
    hash != "" && suffix == "core." + hash
  }

  ghost predicate FailureSuffix(suffix: string) {
    suffix == "out.bad" || suffix == "dmesg" || suffix == "hints" || exists hash :: IsCoreOf(suffix, hash)
  }

  ghost predicate ArchivedForm(suffix: string) {
    exists digits, tail :: IsArchivedAs(suffix, digits, tail)
  }

  ghost predicate IsArchivedAs(suffix: string, digits: string, tail: string) {
    && digits != "" && (forall i :: 0 <= i < |digits| ==> '0' <= digits[i] <= '9')
    && suffix == digits + "." + tail
    && (FailureSuffix(tail) || tail == "full" || tail == "fsxgood" || tail == "fsxlog")
  }

  /** The test has a failure file that is not an archived one. */
  ghost predicate HasFailed(files: Dir, base: string) {
    exists name, suffix :: IsFailureFile(files, base, name, suffix)
  }

  ghost predicate IsFailureFile(files: Dir, base: string, name: string, suffix: string) {
    name in files && IsFileOf(name, base, suffix) && FailureSuffix(suffix) && !ArchivedForm(suffix)
  }

  lemma FileParts(name: string, base: string, suffix: string)
    requires IsFileOf(name, base, suffix)
    ensures HasDot(name) && Base(name) == base && Rest(name) == suffix
  {
    FirstDotAt(base, suffix);
    assert base + ("." + suffix) == name;
  }

  lemma FailureExactly(suffix: string)
    ensures IsFailure(suffix) <==> FailureSuffix(suffix)
  {
    if IsCore(suffix) {
      assert IsCoreOf(suffix, suffix[5..]);
    }
  }

  lemma ArchivedExactly(suffix: string)
    ensures IsRotated(suffix) <==> ArchivedForm(suffix)
  {
    var d := FirstDot(suffix);
    if IsRotated(suffix) {
      FailureExactly(suffix[d + 1..]);
      assert IsArchivedAs(suffix, suffix[..d], suffix[d + 1..]);
    }
    if digits, tail :| IsArchivedAs(suffix, digits, tail) {
      FirstDotAt(digits, tail);
      assert digits + ("." + tail) == suffix && suffix[..d] == digits && suffix[d + 1..] == tail;
      FailureExactly(tail);
    }
  }

  lemma FailingExactly(files: Dir, base: string)
    ensures Failing(files, base) <==> HasFailed(files, base)
  {
    if name :| name in files && Considered(name) && Base(name) == base && IsFailure(Rest(name)) {
      Reassembled(name);
      FailureExactly(Rest(name));
      ArchivedExactly(Rest(name));
      assert IsFailureFile(files, base, name, Rest(name));
    }
    if name, suffix :| IsFailureFile(files, base, name, suffix) {
      FileParts(name, base, suffix);
      FailureExactly(suffix);
      ArchivedExactly(suffix);
    }
  }

  /** A rotation moves a file exactly when it is not an archived one and its test has failed, or
      it is a core file. */
  lemma MovesExactly(files: Dir, name: string, base: string, suffix: string)
    requires IsFileOf(name, base, suffix)
    ensures Moves(files, name) <==>
              !ArchivedForm(suffix) && (HasFailed(files, base) || (|suffix| >= 5 && suffix[..5] == "core."))
  {
    FileParts(name, base, suffix);
    ArchivedExactly(suffix);
    FailingExactly(files, base);
    assert "core." <= suffix <==> |suffix| >= 5 && suffix[..5] == "core.";
  }

  /** A file without a suffix is never moved. */
  lemma UndottedStays(files: Dir, name: string)
    requires forall i :: 0 <= i < |name| ==> name[i] != '.'
    ensures !Moves(files, name)
  {
  }

  /** It is moved to the test's name, the index and its suffix. */
  lemma MovesTo(name: string, base: string, suffix: string, n: nat)
    requires IsFileOf(name, base, suffix)
    ensures Target(name, n) == base + "." + Pad4(n) + "." + suffix
  {
    FileParts(name, base, suffix);
    assert base + "." + (Pad4(n) + "." + suffix) == base + "." + Pad4(n) + "." + suffix;
  }
}
