/**
 * The batch delete of DeleteFiles (files.go:215-242): for each decoded
 * name, the metadata row under the request path is deleted and, only if
 * that succeeded, the object at path.Join(URL, name); errors are joined and
 * the loop always goes on to the next name.
 */
module Deletion {
  import opened Paths
  import opened Backend

  /** The state after the names so far and the errors joined so far. */
  datatype Progress = Progress(state: State, errors: seq<Error>)

  /** One iteration: DeleteFile, then DeleteObject only if the row was deleted. */
  function DeleteOne(p: Progress, rPath: string, name: string, faults: set<Call>): Progress
  {
    var d := DeleteFileStep(p.state, rPath, name, faults);
    if d.error.Some? then Progress(d.state, p.errors + [d.error.value])
    else
      var o := DeleteObjectStep(d.state, Join(rPath, name), faults);
      if o.error.Some? then Progress(o.state, p.errors + [o.error.value]) else Progress(o.state, p.errors)
  }

  /** The loop over all names. */
  function DeleteRun(s: State, rPath: string, names: seq<string>, faults: set<Call>): Progress
  {
    if names == [] then Progress(s, [])
    else DeleteOne(DeleteRun(s, rPath, names[..|names| - 1], faults), rPath, names[|names| - 1], faults)
  }

  /** The names whose rows a trace tried to delete, in order. */
  function RowDeletes(t: seq<Attempt>): seq<string>
  {
    if t == [] then []
    else RowDeletes(t[..|t| - 1]) + (if t[|t| - 1].call.DeleteFile? then [t[|t| - 1].call.name] else [])
  }

  /** The errors of the failed attempts of a trace, in order. */
  function Failures(t: seq<Attempt>): seq<Error>
  {
    if t == [] then []
    else Failures(t[..|t| - 1]) + (if t[|t| - 1].error.Some? then [t[|t| - 1].error.value] else [])
  }

  /**
   * What the loop adds to the trace: per name, a DeleteFile in the request
   * directory, followed by a DeleteObject of the joined path exactly when
   * the DeleteFile succeeded.
   */
  ghost predicate DeletePattern(t: seq<Attempt>, rPath: string)
  {
    && (forall p :: 0 <= p < |t| ==> (t[p].call.DeleteFile? && t[p].call.dir == rPath) || t[p].call.DeleteObject?)
    && (|t| > 0 ==> t[0].call.DeleteFile?)
    && (forall p, q :: 0 <= p && q == p + 1 && q < |t| ==> Linked(t[p], t[q], rPath))
    && (|t| > 0 ==> !RowDeleted(t[|t| - 1]))
  }

  /** A DeleteFile that succeeded. */
  predicate RowDeleted(a: Attempt)
  {
    a.call.DeleteFile? && a.error.None?
  }

  /** Adjacent attempts: an object is deleted right after, and only right after, its row was. */
  predicate Linked(a: Attempt, b: Attempt, rPath: string)
  {
    && (b.call.DeleteObject? <==> RowDeleted(a))
    && (b.call.DeleteObject? ==> b.call.key == Join(rPath, a.call.name))
  }

  lemma RowDeletesAppend(t: seq<Attempt>, u: seq<Attempt>)
    ensures RowDeletes(t + u) == RowDeletes(t) + RowDeletes(u)
  {
    if u != [] {
      var w := u[..|u| - 1];
      assert (t + u)[..|t + u| - 1] == t + w;
      RowDeletesAppend(t, w);
    } else {
      assert t + u == t;
    }
  }

  lemma FailuresAppend(t: seq<Attempt>, u: seq<Attempt>)
    ensures Failures(t + u) == Failures(t) + Failures(u)
  {
    if u != [] {
      var w := u[..|u| - 1];
      assert (t + u)[..|t + u| - 1] == t + w;
      FailuresAppend(t, w);
    } else {
      assert t + u == t;
    }
  }

  /** One iteration adds one or two attempts, in the delete pattern, and joins exactly their failures. */
  lemma DeleteOneTrace(p: Progress, rPath: string, name: string, faults: set<Call>) returns (u: seq<Attempt>)
    ensures var q := DeleteOne(p, rPath, name, faults);
      && q.state.trace == p.state.trace + u
      && DeletePattern(u, rPath)
      && RowDeletes(u) == [name]
      && q.errors == p.errors + Failures(u)
  {
    var q := DeleteOne(p, rPath, name, faults);
    var d := DeleteFileStep(p.state, rPath, name, faults);
    var a := Attempt(DeleteFile(rPath, name), d.error);
    assert [a][..0] == [];
    assert RowDeletes([a]) == [name];
    if d.error.Some? {
      u := [a];
      assert Failures(u) == [d.error.value];
    } else {
      var o := DeleteObjectStep(d.state, Join(rPath, name), faults);
      var b := Attempt(DeleteObject(Join(rPath, name)), o.error);
      u := [a, b];
      assert u[..1] == [a];
      assert Failures([a]) == [];
      assert RowDeletes(u) == RowDeletes([a]);
      assert Failures(u) == if o.error.Some? then [o.error.value] else [];
    }
  }

  /** The delete pattern is closed under concatenation of whole iterations. */
  lemma DeletePatternAppend(t: seq<Attempt>, u: seq<Attempt>, rPath: string)
    requires DeletePattern(t, rPath) && DeletePattern(u, rPath)
    ensures DeletePattern(t + u, rPath)
  {
    var w := t + u;
    forall p, q | 0 <= p && q == p + 1 && q < |w|
      ensures Linked(w[p], w[q], rPath)
    {
      if q < |t| {
        assert w[p] == t[p] && w[q] == t[q];
      } else if p >= |t| {
        assert w[p] == u[p - |t|] && w[q] == u[q - |t|];
      } else {
        assert w[p] == t[|t| - 1] && w[q] == u[0];
      }
    }
    if |u| > 0 {
      assert w[|w| - 1] == u[|u| - 1];
    } else {
      assert w == t;
    }
  }

  /** `u` is what the loop added to `t` to reach `p`, having processed `names`. */
  ghost predicate Explains(t: seq<Attempt>, p: Progress, rPath: string, names: seq<string>, u: seq<Attempt>)
  {
    && p.state.trace == t + u
    && DeletePattern(u, rPath)
    && RowDeletes(u) == names
    && p.errors == Failures(u)
  }

  /** The attempts the loop adds to the trace. */
  lemma {:induction false} DeleteRunAdded(s: State, rPath: string, names: seq<string>, faults: set<Call>)
    returns (u: seq<Attempt>)
    ensures Explains(s.trace, DeleteRun(s, rPath, names, faults), rPath, names, u)
  {
    if names == [] {
      u := [];
      assert s.trace + u == s.trace;
    } else {
      var init := names[..|names| - 1];
      var u1 := DeleteRunAdded(s, rPath, init, faults);
      u := DeleteOneExtends(s.trace, DeleteRun(s, rPath, init, faults), rPath, init, names[|names| - 1], faults, u1);
      assert init + [names[|names| - 1]] == names;
    }
  }

  /** One more iteration extends what the loop has added by that iteration's attempts. */
  lemma DeleteOneExtends(t: seq<Attempt>, p: Progress, rPath: string, init: seq<string>, name: string,
                         faults: set<Call>, u1: seq<Attempt>) returns (u: seq<Attempt>)
    requires Explains(t, p, rPath, init, u1)
    ensures Explains(t, DeleteOne(p, rPath, name, faults), rPath, init + [name], u)
  {
    var u2 := DeleteOneTrace(p, rPath, name, faults);
    Concatenated(t, p, DeleteOne(p, rPath, name, faults), rPath, init, name, u1, u2);
    u := u1 + u2;
  }

  /** Two stretches of the loop, one after the other, add the concatenation of what each adds. */
  lemma Concatenated(t: seq<Attempt>, p: Progress, q: Progress, rPath: string, init: seq<string>, name: string,
                     u1: seq<Attempt>, u2: seq<Attempt>)
    requires Explains(t, p, rPath, init, u1)
    requires q.state.trace == p.state.trace + u2 && DeletePattern(u2, rPath) && RowDeletes(u2) == [name]
    requires q.errors == p.errors + Failures(u2)
    ensures Explains(t, q, rPath, init + [name], u1 + u2)
  {
    DeletePatternAppend(u1, u2, rPath);
    RowDeletesAppend(u1, u2);
    FailuresAppend(u1, u2);
    assert t + u1 + u2 == t + (u1 + u2);
  }

  /**
   * Every name is processed, in order, whether or not earlier names
   * failed; an object is deleted only right after its row was deleted; and
   * the joined errors are exactly the failures of the attempts made.
   */
  lemma DeleteRunTrace(s: State, rPath: string, names: seq<string>, faults: set<Call>)
    ensures var r := DeleteRun(s, rPath, names, faults);
      exists u ::
        && r.state.trace == s.trace + u
        && DeletePattern(u, rPath)
        && RowDeletes(u) == names
        && r.errors == Failures(u)
  {
    var u := DeleteRunAdded(s, rPath, names, faults);
  }

  /** The response is 204 exactly when every attempted call succeeded, and 500 otherwise. */
  lemma {:induction false} FailuresEmpty(t: seq<Attempt>)
    ensures Failures(t) == [] <==> forall p :: 0 <= p < |t| ==> t[p].error.None?
  {
    if t != [] {
      var init := t[..|t| - 1];
      FailuresEmpty(init);
      assert forall p :: 0 <= p < |init| ==> init[p] == t[p];
    }
  }

  /**
   * The rows left after the loop: a row under the request path named in
   * the list is gone unless its DeleteFile is rejected, and every other row
   * is untouched.
   */
  lemma {:induction false} DeleteRunIndex(s: State, rPath: string, names: seq<string>, faults: set<Call>)
    ensures var r := DeleteRun(s, rPath, names, faults).state;
      forall k :: k in r.index <==> k in s.index && !(k.dir == rPath && k.name in names && DeleteFile(rPath, k.name) !in faults)
    ensures var r := DeleteRun(s, rPath, names, faults).state;
      forall k :: k in r.index ==> r.index[k] == s.index[k]
  {
    if names != [] {
      var init := names[..|names| - 1];
      DeleteRunIndex(s, rPath, init, faults);
      assert names == init + [names[|names| - 1]];
    }
  }

  /** The objects left after the loop: only objects at joined paths of listed names can disappear, and none changes. */
  lemma {:induction false} DeleteRunStore(s: State, rPath: string, names: seq<string>, faults: set<Call>)
    ensures var r := DeleteRun(s, rPath, names, faults).state;
      forall key :: key in r.store ==> key in s.store && r.store[key] == s.store[key]
    ensures var r := DeleteRun(s, rPath, names, faults).state;
      forall key :: key in s.store && key !in r.store ==> exists n :: n in names && key == Join(rPath, n)
  {
    if names != [] {
      var init := names[..|names| - 1];
      var name := names[|names| - 1];
      DeleteRunStore(s, rPath, init, faults);
      assert names == init + [name];
      var p := DeleteRun(s, rPath, init, faults);
      var r := DeleteRun(s, rPath, names, faults).state;
      assert r.store.Keys <= p.state.store.Keys && r.store.Keys >= p.state.store.Keys - {Join(rPath, name)};
      forall key | key in s.store && key !in r.store
        ensures exists n :: n in names && key == Join(rPath, n)
      {
        if key in p.state.store {
          assert key == Join(rPath, name);
        } else {
          var n :| n in init && key == Join(rPath, n);
          assert n in names;
        }
      }
    }
  }

  /**
   * A listed row is fully removed, row and object, when it exists, its
   * object key is not shared, and neither backend rejects its calls.
   */
  lemma DeleteRunRemovesObject(s: State, rPath: string, names: seq<string>, faults: set<Call>, i: nat)
    requires i < |names| && Key(rPath, names[i]) in s.index
    requires DeleteFile(rPath, names[i]) !in faults && DeleteObject(Join(rPath, names[i])) !in faults
    requires forall j :: 0 <= j < i ==> names[j] != names[i]
    ensures Key(rPath, names[i]) !in DeleteRun(s, rPath, names, faults).state.index
    ensures Join(rPath, names[i]) !in DeleteRun(s, rPath, names, faults).state.store
  {
    DeleteRunIndex(s, rPath, names, faults);
    DeleteRunStoreGone(s, rPath, names, faults, i);
  }

  /** Once an object is deleted, later iterations never bring it back. */
  lemma {:induction false} DeleteRunStoreGone(s: State, rPath: string, names: seq<string>, faults: set<Call>, i: nat)
    requires i < |names| && Key(rPath, names[i]) in s.index
    requires DeleteFile(rPath, names[i]) !in faults && DeleteObject(Join(rPath, names[i])) !in faults
    requires forall j :: 0 <= j < i ==> names[j] != names[i]
    ensures Join(rPath, names[i]) !in DeleteRun(s, rPath, names, faults).state.store
  {
    var init := names[..|names| - 1];
    var name := names[|names| - 1];
    var p := DeleteRun(s, rPath, init, faults);
    assert names == init + [name];
    if i < |names| - 1 {
      DeleteRunStoreGone(s, rPath, init, faults, i);
      var r := DeleteOne(p, rPath, name, faults).state;
      assert r.store.Keys <= p.state.store.Keys;
    } else {
      DeleteRunIndex(s, rPath, init, faults);
      assert Key(rPath, name) in p.state.index;
    }
  }

  /**
   * Deleting keeps every remaining row backed by its object, provided no
   * two rows share an object key; the rows stay unshared.
   */
  lemma {:induction false} DeleteRunKeepsBacked(s: State, rPath: string, names: seq<string>, faults: set<Call>)
    requires Backed(s) && Unaliased(s)
    ensures Backed(DeleteRun(s, rPath, names, faults).state) && Unaliased(DeleteRun(s, rPath, names, faults).state)
  {
    if names != [] {
      var init := names[..|names| - 1];
      var name := names[|names| - 1];
      DeleteRunKeepsBacked(s, rPath, init, faults);
      var p := DeleteRun(s, rPath, init, faults);
      var d := DeleteFileStep(p.state, rPath, name, faults);
      if d.error.None? {
        var gone := Key(rPath, name);
        assert ObjectKey(gone) == Join(rPath, name);
        var o := DeleteObjectStep(d.state, Join(rPath, name), faults);
        forall k | k in o.state.index
          ensures ObjectKey(k) in o.state.store
        {
          assert k in p.state.index && k != gone;
        }
      }
    }
  }
}
