/**
 * The selection info panel's editing helpers
 * (`panel-selection-info.js`): which points and components the
 * selection names, reading and writing a value at a change path inside
 * the edited glyph instance, and how a stream of values from a dragged
 * slider is recorded so that every change undoes to the value the drag
 * started from.
 */
module SelectionInfo {
  import opened Base
  import EditBehavior

  //
  // _getSelection
  //

  /** The point and component indices the selection info works on. */
  datatype Selection = Selection(pointIndices: seq<EditBehavior.SelIndex>, componentIndices: seq<EditBehavior.SelIndex>)

  /** The indices of one type in a parsed selection; `[]` when the type is absent. */
  function Group(groups: map<string, seq<EditBehavior.SelIndex>>, tp: string): seq<EditBehavior.SelIndex> {
    if tp in groups then groups[tp] else []
  }

  /** Every component index of a parsed selection, of the three kinds that select a component. */
  function ComponentGroups(groups: map<string, seq<EditBehavior.SelIndex>>): seq<EditBehavior.SelIndex> {
    Group(groups, "component") + Group(groups, "componentOrigin") + Group(groups, "componentTCenter")
  }

  /**
   * `_getSelection` on the groups `parseSelection` makes of the scene's
   * selection: the point indices as given, and the component indices of
   * all three kinds once each, sorted by number.
   */
  function GetSelection(groups: map<string, seq<EditBehavior.SelIndex>>): (r: Selection)
    ensures r.pointIndices == Group(groups, "point")
    ensures forall x :: x in r.componentIndices <==> x in ComponentGroups(groups)
    ensures Distinct(r.componentIndices)
    ensures EditBehavior.AllNumbers(ComponentGroups(groups)) ==>
              EditBehavior.AllNumbers(r.componentIndices) && forall a, b :: 0 <= a < b < |r.componentIndices| ==> r.componentIndices[a].n < r.componentIndices[b].n
  {
    SortedUnique(ComponentGroups(groups));
    Selection(Group(groups, "point"), EditBehavior.SortIndices(Dedup(ComponentGroups(groups))))
  }

  /** `[...new Set(all)].sort((a, b) => a - b)` holds each index of `all` once, ascending when all are numbers. */
  lemma SortedUnique(all: seq<EditBehavior.SelIndex>)
    ensures var sorted := EditBehavior.SortIndices(Dedup(all));
      && (forall x :: x in sorted <==> x in all)
      && Distinct(sorted)
      && (EditBehavior.AllNumbers(all) ==>
            EditBehavior.AllNumbers(sorted) && forall a, b :: 0 <= a < b < |sorted| ==> sorted[a].n < sorted[b].n)
  {
    var unique := Dedup(all);
    var sorted := EditBehavior.SortIndices(unique);
    DedupIs(all);
    SameElements(unique, sorted);
    DistinctPermutation(unique, sorted);
    if EditBehavior.AllNumbers(all) {
      NumbersKept(all, unique);
      EditBehavior.SortIndicesAscending(unique);
      StrictlyAscending(sorted);
    }
  }

  lemma SameElements<T>(s: seq<T>, t: seq<T>)
    requires multiset(s) == multiset(t)
    ensures forall x :: x in s <==> x in t
  {
    forall x ensures x in s <==> x in t {
      assert x in s <==> x in multiset(s);
      assert x in t <==> x in multiset(t);
    }
  }

  lemma NumbersKept(all: seq<EditBehavior.SelIndex>, some: seq<EditBehavior.SelIndex>)
    requires EditBehavior.AllNumbers(all) && forall x :: x in some ==> x in all
    ensures EditBehavior.AllNumbers(some)
  {
    forall k | 0 <= k < |some| ensures some[k].Index? {
      assert some[k] in some;
    }
  }

  lemma StrictlyAscending(s: seq<EditBehavior.SelIndex>)
    requires EditBehavior.AllNumbers(s) && EditBehavior.Ascending(s) && Distinct(s)
    ensures forall a, b :: 0 <= a < b < |s| ==> s[a].n < s[b].n
  {
  }

  /** How often `x` occurs in a sequence whose elements are distinct: at most once. */
  lemma {:induction false} DistinctCount<T>(s: seq<T>, x: T)
    requires Distinct(s)
    ensures multiset(s)[x] <= 1
  {
    if |s| > 0 {
      var init := s[..|s| - 1];
      assert s == init + [s[|s| - 1]];
      assert Distinct(init) by {
        forall a, b | 0 <= a < b < |init| ensures init[a] != init[b] {
          assert init[a] == s[a] && init[b] == s[b];
        }
      }
      DistinctCount(init, x);
      if s[|s| - 1] == x {
        assert x !in init by {
          forall k | 0 <= k < |init| ensures init[k] != x {
            assert init[k] == s[k];
          }
        }
      }
    }
  }

  /** Two equal elements at different places count twice. */
  lemma PairCounts<T>(t: seq<T>, a: nat, b: nat)
    requires a < b < |t|
    ensures t[a] == t[b] ==> multiset(t)[t[a]] >= 2
  {
    assert t == t[..a] + [t[a]] + t[a + 1..b] + [t[b]] + t[b + 1..];
  }

  /** A permutation of a sequence of distinct elements has distinct elements. */
  lemma DistinctPermutation<T>(s: seq<T>, t: seq<T>)
    requires Distinct(s) && multiset(s) == multiset(t)
    ensures Distinct(t)
  {
    forall a, b | 0 <= a < b < |t| ensures t[a] != t[b] {
      PairCounts(t, a, b);
      DistinctCount(s, t[a]);
    }
  }

  //
  // Values at a change path
  //

  /** A value inside the edited instance: a primitive or a reference to one of its objects. */
  datatype Val =
    | Undefined
    | Null
    | Bool(b: bool)
    | Num(n: real)
    | Str(s: string)
    | Ref(id: nat)

  /** The errors of the nested value helpers. */
  datatype NestedError =
    | InvalidChangePath  // "assert -- invalid change path: …"
    | TypeError          // a property read or write on `undefined` or `null`, or a write to a primitive

  /** A change to the instance at a path. */
  datatype Change = SetValue(path: seq<string>, value: Val) | DeleteValue(path: seq<string>)

  /** A recorded change and the rollback that undoes it. */
  datatype Recorded = Recorded(change: Change, rollback: Change)

  /** The key `setNestedValue` and `deleteNestedValue` change: the last of the path, `undefined` (read as "undefined") for an empty path. */
  function LastKey(path: seq<string>): string {
    if |path| == 0 then "undefined" else path[|path| - 1]
  }

  /** The path of the object whose key they change: all but the last key. */
  function ParentPath(path: seq<string>): seq<string> {
    if |path| == 0 then [] else path[..|path| - 1]
  }

  /** The rollback every change of a value stream gets: back to the value the stream started from, or deleted when that was `undefined`. */
  function StreamRollback(path: seq<string>, orgValue: Val): Change {
    if orgValue != Undefined then SetValue(path, orgValue) else DeleteValue(path)
  }

  /**
   * The edited glyph instance as the selection info panel changes it:
   * its objects by identity, each with its own properties. An object
   * held in two places is one entry here, so a change through one path
   * shows through every other.
   */
  class Instance {
    var objects: map<nat, map<string, Val>>

    /** Every reference leads to an object of the instance. */
    predicate Valid()
      reads this
    {
      forall id, key :: id in objects && key in objects[id] ==> Closed(objects[id][key])
    }

    /** A value that is not a reference to a missing object. */
    predicate Closed(v: Val)
      reads this
    {
      v.Ref? ==> v.id in objects
    }

    constructor(objects: map<nat, map<string, Val>>)
      ensures this.objects == objects
    {
      this.objects := objects;
    }

    /** `v[key]`: an object's own property or `undefined`; primitives have none of the keys modelled; `undefined` and `null` raise. */
    function Get(v: Val, key: string): (r: Result<Val, NestedError>)
      reads this
      ensures r.Err? <==> v == Undefined || v == Null
      ensures Valid() && Closed(v) && r.Ok? ==> Closed(r.value)
    {
      match v
      case Undefined => Err(TypeError)
      case Null => Err(TypeError)
      case Ref(id) => Ok(if id in objects && key in objects[id] then objects[id][key] else Undefined)
      case _ => Ok(Undefined)
    }

    /**
     * What `getNestedValue` gives: the value reached by reading the
     * path's keys in turn; stepping on from an `undefined` raises the
     * invalid change path error.
     */
    function NestedValue(subject: Val, path: seq<string>): Result<Val, NestedError>
      reads this
      decreases |path|
    {
      if |path| == 0 then Ok(subject)
      else if subject == Undefined then Err(InvalidChangePath)
      else
        match Get(subject, path[0])
        case Err(e) => Err(e)
        case Ok(next) => NestedValue(next, path[1..])
    }

    /** In a valid instance, a walk from a value that is not dangling ends on one that is not. */
    lemma {:induction false} NestedValueClosed(subject: Val, path: seq<string>)
      requires Valid() && Closed(subject)
      ensures NestedValue(subject, path).Ok? ==> Closed(NestedValue(subject, path).value)
      decreases |path|
    {
      if |path| > 0 && subject != Undefined && Get(subject, path[0]).Ok? {
        NestedValueClosed(Get(subject, path[0]).value, path[1..]);
      }
    }

    /** `getNestedValue`: the loop that walks the path. */
    method GetNestedValue(subject: Val, path: seq<string>) returns (r: Result<Val, NestedError>)
      ensures r == NestedValue(subject, path)
    {
      var current := subject;
      var i := 0;
      while i < |path|
        invariant i <= |path|
        invariant NestedValue(subject, path) == NestedValue(current, path[i..])
      {
        assert path[i..][1..] == path[i + 1..];
        if current == Undefined {
          return Err(InvalidChangePath);
        }
        var next := Get(current, path[i]);
        if next.Err? {
          return Err(next.error);
        }
        current := next.value;
        i := i + 1;
      }
      r := Ok(current);
    }

    /** One more key reads on from the value of the shorter path, and fails where it failed. */
    lemma {:induction false} NestedValueSnoc(subject: Val, path: seq<string>, key: string)
      ensures NestedValue(subject, path + [key]) ==
        match NestedValue(subject, path)
        case Err(e) => Err(e)
        case Ok(v) => if v == Undefined then Err(InvalidChangePath) else Get(v, key)
      decreases |path|
    {
      if |path| > 0 {
        assert (path + [key])[1..] == path[1..] + [key];
        if subject != Undefined && Get(subject, path[0]).Ok? {
          NestedValueSnoc(Get(subject, path[0]).value, path[1..], key);
        }
      } else {
        assert (path + [key])[1..] == [];
      }
    }

    /**
     * `getNestedValue` raises the invalid change path error exactly
     * when the walk reaches `undefined` before the last key; an
     * `undefined` at the end is returned.
     */
    lemma {:induction false} InvalidPathMeans(subject: Val, path: seq<string>)
      ensures NestedValue(subject, path) == Err(InvalidChangePath) <==>
                exists i :: 0 <= i < |path| && NestedValue(subject, path[..i]) == Ok(Undefined)
      decreases |path|
    {
      if |path| > 0 {
        var init := path[..|path| - 1];
        var key := path[|path| - 1];
        assert path == init + [key];
        InvalidPathMeans(subject, init);
        NestedValueSnoc(subject, init, key);
        if exists i :: 0 <= i < |init| && NestedValue(subject, init[..i]) == Ok(Undefined) {
          var i :| 0 <= i < |init| && NestedValue(subject, init[..i]) == Ok(Undefined);
          assert path[..i] == init[..i];
        }
        if exists i :: 0 <= i < |path| && NestedValue(subject, path[..i]) == Ok(Undefined) {
          var i :| 0 <= i < |path| && NestedValue(subject, path[..i]) == Ok(Undefined);
          if i < |init| {
            assert init[..i] == path[..i];
          } else {
            assert path[..i] == init;
          }
        }
      }
    }

    /** For a non-empty path, the value read is the parent's property at the last key. */
    lemma ValueIsParentKey(subject: Val, path: seq<string>)
      requires |path| > 0
      ensures NestedValue(subject, path) ==
        match NestedValue(subject, ParentPath(path))
        case Err(e) => Err(e)
        case Ok(v) => if v == Undefined then Err(InvalidChangePath) else Get(v, LastKey(path))
    {
      assert ParentPath(path) + [LastKey(path)] == path;
      NestedValueSnoc(subject, ParentPath(path), LastKey(path));
    }

    /** `obj[key] = v` on the object `id`. */
    method PutKey(id: nat, key: string, v: Val)
      requires Valid() && id in objects && Closed(v)
      modifies this
      ensures Valid()
      ensures objects == old(objects)[id := old(objects)[id][key := v]]
    {
      objects := objects[id := objects[id][key := v]];
    }

    /** `delete obj[key]` on the object `id`. */
    method DropKey(id: nat, key: string)
      requires Valid() && id in objects
      modifies this
      ensures Valid()
      ensures objects == old(objects)[id := old(objects)[id] - {key}]
    {
      objects := objects[id := objects[id] - {key}];
    }

    /**
     * `setNestedValue`: resolves the parent as `getNestedValue` does and
     * sets its last key; only that property of that object changes. A
     * parent that is not an object raises (module code is strict).
     */
    method SetNestedValue(subject: Val, path: seq<string>, value: Val) returns (r: Outcome<NestedError>)
      requires Valid() && Closed(subject) && Closed(value)
      modifies this
      ensures Valid()
      ensures var parent := old(NestedValue(subject, ParentPath(path)));
        && (parent.Err? ==> r == Fail(parent.error) && objects == old(objects))
        && (parent.Ok? && !parent.value.Ref? ==> r == Fail(TypeError) && objects == old(objects))
        && (parent.Ok? && parent.value.Ref? ==>
              && r == Pass
              && parent.value.id in old(objects)
              && objects == old(objects)[parent.value.id := old(objects)[parent.value.id][LastKey(path) := value]])
    {
      var parent := GetNestedValue(subject, ParentPath(path));
      if parent.Err? {
        return Fail(parent.error);
      }
      if !parent.value.Ref? {
        return Fail(TypeError);
      }
      NestedValueClosed(subject, ParentPath(path));
      PutKey(parent.value.id, LastKey(path), value);
      r := Pass;
    }

    /**
     * `deleteNestedValue`: resolves the parent and deletes its last key;
     * only that property of that object changes. Deleting from
     * `undefined` or `null` raises; from another primitive it does
     * nothing.
     */
    method DeleteNestedValue(subject: Val, path: seq<string>) returns (r: Outcome<NestedError>)
      requires Valid() && Closed(subject)
      modifies this
      ensures Valid()
      ensures var parent := old(NestedValue(subject, ParentPath(path)));
        && (parent.Err? ==> r == Fail(parent.error))
        && (parent.Ok? && (parent.value == Undefined || parent.value == Null) ==> r == Fail(TypeError))
        && (parent.Ok? && parent.value != Undefined && parent.value != Null ==> r == Pass)
        && (parent.Ok? && parent.value.Ref? ==>
              && parent.value.id in old(objects)
              && objects == old(objects)[parent.value.id := old(objects)[parent.value.id] - {LastKey(path)}])
        && (!(parent.Ok? && parent.value.Ref?) ==> objects == old(objects))
    {
      var parent := GetNestedValue(subject, ParentPath(path));
      if parent.Err? {
        return Fail(parent.error);
      }
      if parent.value == Undefined || parent.value == Null {
        return Fail(TypeError);
      }
      if parent.value.Ref? {
        NestedValueClosed(subject, ParentPath(path));
        DropKey(parent.value.id, LastKey(path));
      }
      r := Pass;
    }

    /**
     * `recordChanges(instance, (instance) => setNestedValue(instance,
     * path, value))`: the set, recorded with a rollback that puts back
     * the key's value from before the set, or deletes the key when the
     * parent lacked it. Errors of the set propagate.
     */
    method RecordSet(subject: Val, path: seq<string>, value: Val) returns (r: Result<Recorded, NestedError>)
      requires Valid() && Closed(subject) && Closed(value)
      modifies this
      ensures Valid()
      ensures var parent := old(NestedValue(subject, ParentPath(path)));
        && (parent.Err? ==> r == Err(parent.error) && objects == old(objects))
        && (parent.Ok? && !parent.value.Ref? ==> r == Err(TypeError) && objects == old(objects))
        && (parent.Ok? && parent.value.Ref? ==>
              && parent.value.id in old(objects)
              && var before := old(objects)[parent.value.id];
              && r == Ok(Recorded(SetValue(path, value),
                                  if LastKey(path) in before then SetValue(path, before[LastKey(path)]) else DeleteValue(path)))
              && objects == old(objects)[parent.value.id := before[LastKey(path) := value]])
    {
      var parent := GetNestedValue(subject, ParentPath(path));
      if parent.Err? {
        return Err(parent.error);
      }
      if !parent.value.Ref? {
        return Err(TypeError);
      }
      NestedValueClosed(subject, ParentPath(path));
      var id := parent.value.id;
      var key := LastKey(path);
      var rollback := if key in objects[id] then SetValue(path, objects[id][key]) else DeleteValue(path);
      PutKey(id, key, value);
      r := Ok(Recorded(SetValue(path, value), rollback));
    }

    /**
     * The value-stream branch of `_setupSelectionInfoHandlers`: the
     * value at the path when the stream starts is kept; before each new
     * value is recorded, that value is put back, or the key deleted when
     * it was `undefined`, so each recorded change undoes to the start.
     * The parent object is resolved once.
     */
    method ValueStream(subject: Val, path: seq<string>, values: seq<Val>) returns (r: Result<seq<Recorded>, NestedError>)
      requires Valid() && Closed(subject) && forall v :: v in values ==> Closed(v)
      modifies this
      ensures Valid()
      ensures var org := old(NestedValue(subject, path));
              var parent := old(NestedValue(subject, ParentPath(path)));
        && (org.Err? ==> r == Err(org.error) && objects == old(objects))
        && (org.Ok? && |values| == 0 ==> r == Ok([]) && objects == old(objects))
        && (org.Ok? && |values| > 0 && !(parent.Ok? && parent.value.Ref?) ==> r == Err(TypeError) && objects == old(objects))
        && (org.Ok? && |values| > 0 && parent.Ok? && parent.value.Ref? ==>
              && parent.value.id in old(objects)
              && r == Ok(StreamRecords(path, values, org.value))
              && objects == old(objects)[parent.value.id := old(objects)[parent.value.id][LastKey(path) := values[|values| - 1]]])
    {
      var org := GetNestedValue(subject, path);
      if org.Err? {
        return Err(org.error);
      }
      if |values| == 0 {
        return Ok([]);
      }
      var parent := GetNestedValue(subject, ParentPath(path));
      if !(parent.Ok? && parent.value.Ref?) {
        return Err(TypeError);
      }
      NestedValueClosed(subject, ParentPath(path));
      NestedValueClosed(subject, path);
      var recorded := StreamRecord(parent.value.id, path, org.value, values);
      r := Ok(recorded);
    }

    /** The `for await` loop of the value stream, on the resolved parent object `id`. */
    method StreamRecord(id: nat, path: seq<string>, orgValue: Val, values: seq<Val>) returns (recorded: seq<Recorded>)
      requires Valid() && id in objects && Closed(orgValue) && |values| > 0 && forall v :: v in values ==> Closed(v)
      modifies this
      ensures Valid()
      ensures recorded == StreamRecords(path, values, orgValue)
      ensures objects == old(objects)[id := old(objects)[id][LastKey(path) := values[|values| - 1]]]
    {
      var key := LastKey(path);
      var start := objects[id];
      recorded := [];
      var i := 0;
      while i < |values|
        invariant i <= |values|
        invariant Valid() && id in objects
        invariant recorded == StreamRecords(path, values[..i], orgValue)
        invariant objects == old(objects)[id := objects[id]]
        invariant objects[id] == if i == 0 then start else start[key := values[i - 1]]
      {
        assert values[i] in values;
        var rollback := RestoreAndSet(id, path, orgValue, values[i]);
        recorded := recorded + [Recorded(SetValue(path, values[i]), rollback)];
        assert values[..i + 1] == values[..i] + [values[i]];
        i := i + 1;
      }
      assert values[..i] == values;
    }

    /**
     * One step of the stream: the key is put back to the starting value,
     * or deleted when that was `undefined`, and then the new value is
     * set and recorded; the rollback is taken after the restore.
     */
    method RestoreAndSet(id: nat, path: seq<string>, orgValue: Val, v: Val) returns (rollback: Change)
      requires Valid() && id in objects && Closed(orgValue) && Closed(v)
      modifies this
      ensures Valid()
      ensures rollback == StreamRollback(path, orgValue)
      ensures objects == old(objects)[id := old(objects)[id][LastKey(path) := v]]
    {
      var key := LastKey(path);
      ghost var before := objects[id];
      // put the starting value back
      if orgValue != Undefined {
        PutKey(id, key, orgValue);
        assert objects[id][key := v] == before[key := v];
      } else {
        DropKey(id, key);
        assert objects[id][key := v] == before[key := v];
      }
      // record the new value
      rollback := if key in objects[id] then SetValue(path, objects[id][key]) else DeleteValue(path);
      PutKey(id, key, v);
    }
  }

  /** What a value stream records: each value set, each undoing to the value the stream started from. */
  function StreamRecords(path: seq<string>, values: seq<Val>, orgValue: Val): (r: seq<Recorded>)
    ensures |r| == |values|
    ensures forall k :: 0 <= k < |values| ==> r[k] == Recorded(SetValue(path, values[k]), StreamRollback(path, orgValue))
  {
    if |values| == 0 then []
    else StreamRecords(path, values[..|values| - 1], orgValue) + [Recorded(SetValue(path, values[|values| - 1]), StreamRollback(path, orgValue))]
  }

  /**
   * The undo label of a selection info edit: the last path element for
   * a path of one, else the last two joined by "." (an empty path reads
   * `undefined` for both).
   */
  function UndoLabel(path: seq<string>): string {
    if |path| == 1 then path[0]
    else EditBehavior.Join([ElementAt(path, |path| - 2), ElementAt(path, |path| - 1)], '.')
  }

  /**
   * The label names the edited key and, below the top level, the key
   * that holds it: when neither holds a ".", the label splits at "."
   * into exactly those.
   */
  lemma UndoLabelNames(path: seq<string>)
    requires forall k :: 0 <= k < |path| && k >= |path| - 2 ==> '.' !in path[k]
    ensures EditBehavior.Split(UndoLabel(path), '.') ==
              if |path| == 1 then [path[0]] else [ElementAt(path, |path| - 2), ElementAt(path, |path| - 1)]
  {
    if |path| == 1 {
      EditBehavior.SplitWithoutSeparator(path[0], '.');
    } else {
      var parts := [ElementAt(path, |path| - 2), ElementAt(path, |path| - 1)];
      assert '.' !in "undefined";
      EditBehavior.JoinSplit(parts, '.');
    }
  }

  /** `path[i]` in a template: "undefined" outside the path. */
  function ElementAt(path: seq<string>, i: int): string {
    if 0 <= i < |path| then path[i] else "undefined"
  }
}
