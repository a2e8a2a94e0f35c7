/** Renaming the files of a directory one at a time. A rename that meets an existing file
    replaces it, so the order is safe only when no new name is already taken. */
module Renaming {
  import opened Wrappers

  function Rename<N(==), C>(files: map<N, C>, from: N, to: N): map<N, C>
    requires from in files
  {
    (files - {from})[to := files[from]]
  }

  /** `move` gives every file its new name: distinct files get distinct names, and no new
      name is taken yet. */
  ghost predicate Safe<N, C>(before: map<N, C>, move: map<N, N>) {
    && move.Keys == before.Keys
    && (forall a, b {:trigger move[a], move[b]} :: a in move && b in move && a != b ==> move[a] != move[b])
    && forall a {:trigger move[a]} :: a in move && move[a] != a ==> move[a] !in before
  }

  /** Part of the way through: the files in `todo` have yet to be looked at. */
  ghost function NameNow<N>(move: map<N, N>, todo: set<N>, name: N): N {
    if name in todo || name !in move then name else move[name]
  }

  /** Every file of `before` is in `now` under its current name, and nothing else is. */
  ghost predicate PartRenamed<N, C>(before: map<N, C>, now: map<N, C>, move: map<N, N>, todo: set<N>) {
    && (forall name {:trigger NameNow(move, todo, name)} ::
          name in before ==> Get(now, NameNow(move, todo, name)) == Some(before[name]))
    && forall t :: t in now ==> exists name {:trigger NameNow(move, todo, name)} ::
          name in before && NameNow(move, todo, name) == t
  }

  lemma NothingRenamedYet<N, C>(before: map<N, C>, move: map<N, N>)
    ensures PartRenamed(before, before, move, before.Keys)
  {
    assert forall name :: name in before ==> NameNow(move, before.Keys, name) == name;
  }

  /** A rename under a safe map replaces nothing, whatever has been renamed so far. */
  lemma RenameOne<N, C>(before: map<N, C>, now: map<N, C>, move: map<N, N>, todo: set<N>, name: N)
    requires Safe(before, move) && PartRenamed(before, now, move, todo)
    requires name in todo && name in before && move[name] != name
    ensures name in now && move[name] !in now
    ensures PartRenamed(before, Rename(now, name, move[name]), move, todo - {name})
  {
    assert NameNow(move, todo, name) == name;
    var after, rest := Rename(now, name, move[name]), todo - {name};
    forall x | x in before
      ensures NameNow(move, todo, x) != move[name]
      ensures x != name ==> NameNow(move, todo, x) == NameNow(move, rest, x) != name
    {
    }
    forall t | t in after
      ensures exists x :: x in before && NameNow(move, rest, x) == t
    {
      if t == move[name] {
        assert NameNow(move, rest, name) == t;
      } else {
        var x :| x in before && NameNow(move, todo, x) == t;
        assert NameNow(move, rest, x) == t;
      }
    }
  }

  lemma KeepOne<N, C>(before: map<N, C>, now: map<N, C>, move: map<N, N>, todo: set<N>, name: N)
    requires Safe(before, move) && PartRenamed(before, now, move, todo)
    requires name in todo && name in before && move[name] == name
    ensures PartRenamed(before, now, move, todo - {name})
  {
    assert forall x :: NameNow(move, todo - {name}, x) == NameNow(move, todo, x);
  }
}
