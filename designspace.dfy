/**
 * The designspace navigation panel's source and layer bookkeeping
 * (`panel-designspace-navigation.js`): sparse locations, the axis list a
 * source dialog shows, the suggested source name, the dialog's
 * warnings, and what deleting, adding and editing a source does to the
 * glyph's sources and layers.
 */
module DesignspaceNavigation {
  import opened Base
  import opened JsValue
  import opened VarGlyph
  import EditBehavior

  //
  // Objects built from entries
  //

  /** The keys of an entry list, as a set. */
  function KeySet(entries: seq<(string, Js)>): (keys: set<string>)
    ensures forall k :: k in keys <==> HasKey(entries, k)
  {
    set j | 0 <= j < |entries| :: entries[j].0
  }

  /** `Object.fromEntries`: every key once, where it first appears, with the last value given for it. */
  function FromEntries(entries: seq<(string, Js)>): seq<(string, Js)> {
    if |entries| == 0 then []
    else
      var last := entries[|entries| - 1];
      Put(FromEntries(entries[..|entries| - 1]), last.0, last.1)
  }

  /** The value an object given by its entries has for `key`: `undefined` when it lacks the key. */
  function ValueAt(entries: seq<(string, Js)>, key: string): Js {
    if |entries| == 0 then Undefined
    else if entries[0].0 == key then entries[0].1
    else ValueAt(entries[1..], key)
  }

  lemma HasKeyCons(head: (string, Js), tail: seq<(string, Js)>, key: string)
    ensures HasKey([head] + tail, key) <==> head.0 == key || HasKey(tail, key)
  {
    var e := [head] + tail;
    assert e[0] == head;
    if HasKey(tail, key) {
      var j :| 0 <= j < |tail| && tail[j].0 == key;
      assert e[j + 1] == tail[j];
    }
    if HasKey(e, key) && head.0 != key {
      var j :| 0 <= j < |e| && e[j].0 == key;
      assert tail[j - 1] == e[j];
    }
  }

  lemma HasKeySnoc(init: seq<(string, Js)>, last: (string, Js), key: string)
    ensures HasKey(init + [last], key) <==> HasKey(init, key) || last.0 == key
  {
    var e := init + [last];
    assert e[|init|] == last;
    if HasKey(init, key) {
      var j :| 0 <= j < |init| && init[j].0 == key;
      assert e[j] == init[j];
    }
    if HasKey(e, key) && last.0 != key {
      var j :| 0 <= j < |e| && e[j].0 == key;
      assert init[j] == e[j];
    }
  }

  lemma DistinctCons(head: (string, Js), tail: seq<(string, Js)>)
    ensures DistinctKeys([head] + tail) <==> DistinctKeys(tail) && !HasKey(tail, head.0)
  {
    var e := [head] + tail;
    HasKeyCons(head, tail, head.0);
    if DistinctKeys(e) {
      forall a, b | 0 <= a < b < |tail| ensures tail[a].0 != tail[b].0 {
        assert tail[a] == e[a + 1] && tail[b] == e[b + 1];
      }
      forall j | 0 <= j < |tail| ensures tail[j].0 != head.0 {
        assert e[j + 1] == tail[j] && e[0] == head;
      }
    }
    if DistinctKeys(tail) && !HasKey(tail, head.0) {
      forall a, b | 0 <= a < b < |e| ensures e[a].0 != e[b].0 {
        assert e[b] == tail[b - 1];
        if a > 0 {
          assert e[a] == tail[a - 1];
        } else {
          assert tail[b - 1].0 != head.0;
        }
      }
    }
  }

  lemma DistinctSnoc(init: seq<(string, Js)>, last: (string, Js))
    requires DistinctKeys(init + [last])
    ensures DistinctKeys(init) && !HasKey(init, last.0)
  {
    var e := init + [last];
    forall a, b | 0 <= a < b < |init| ensures init[a].0 != init[b].0 {
      assert init[a] == e[a] && init[b] == e[b];
    }
    forall j | 0 <= j < |init| ensures init[j].0 != last.0 {
      assert init[j] == e[j] && last == e[|init|];
    }
  }

  /** Putting a key adds exactly that key. */
  lemma {:induction false} PutKeys(entries: seq<(string, Js)>, key: string, value: Js, k: string)
    ensures HasKey(Put(entries, key, value), k) <==> HasKey(entries, k) || k == key
  {
    if |entries| == 0 {
      assert Put(entries, key, value)[0].0 == key;
    } else {
      assert entries == [entries[0]] + entries[1..];
      HasKeyCons(entries[0], entries[1..], k);
      if entries[0].0 == key {
        HasKeyCons((key, value), entries[1..], k);
      } else {
        PutKeys(entries[1..], key, value, k);
        HasKeyCons(entries[0], Put(entries[1..], key, value), k);
      }
    }
  }

  /** Putting a key keeps the keys distinct. */
  lemma {:induction false} PutDistinct(entries: seq<(string, Js)>, key: string, value: Js)
    requires DistinctKeys(entries)
    ensures DistinctKeys(Put(entries, key, value))
  {
    if |entries| > 0 {
      assert entries == [entries[0]] + entries[1..];
      DistinctCons(entries[0], entries[1..]);
      if entries[0].0 == key {
        DistinctCons((key, value), entries[1..]);
      } else {
        PutDistinct(entries[1..], key, value);
        PutKeys(entries[1..], key, value, entries[0].0);
        DistinctCons(entries[0], Put(entries[1..], key, value));
      }
    }
  }

  /** Putting a key sets its value and leaves the values of the other keys alone. */
  lemma {:induction false} PutValue(entries: seq<(string, Js)>, key: string, value: Js, k: string)
    ensures ValueAt(Put(entries, key, value), k) == if k == key then value else ValueAt(entries, k)
  {
    if |entries| > 0 && entries[0].0 != key {
      PutValue(entries[1..], key, value, k);
      assert ([entries[0]] + Put(entries[1..], key, value))[1..] == Put(entries[1..], key, value);
    } else if |entries| > 0 {
      assert ([(key, value)] + entries[1..])[1..] == entries[1..];
    }
  }

  /**
   * `Object.fromEntries` keeps each key once, has exactly the keys
   * given, and gives each the value of its last entry.
   */
  lemma {:induction false} FromEntriesFacts(entries: seq<(string, Js)>)
    ensures DistinctKeys(FromEntries(entries))
    ensures forall k :: HasKey(FromEntries(entries), k) <==> HasKey(entries, k)
    ensures forall j :: 0 <= j < |entries| && (forall m :: j < m < |entries| ==> entries[m].0 != entries[j].0) ==>
              ValueAt(FromEntries(entries), entries[j].0) == entries[j].1
  {
    if |entries| > 0 {
      var init := entries[..|entries| - 1];
      var last := entries[|entries| - 1];
      assert entries == init + [last];
      FromEntriesFacts(init);
      PutDistinct(FromEntries(init), last.0, last.1);
      forall k ensures HasKey(FromEntries(entries), k) <==> HasKey(entries, k) {
        PutKeys(FromEntries(init), last.0, last.1, k);
        HasKeySnoc(init, last, k);
      }
      forall j | 0 <= j < |entries| && (forall m :: j < m < |entries| ==> entries[m].0 != entries[j].0)
        ensures ValueAt(FromEntries(entries), entries[j].0) == entries[j].1
      {
        PutValue(FromEntries(init), last.0, last.1, entries[j].0);
        if j < |entries| - 1 {
          assert entries[j] == init[j];
          assert forall m :: j < m < |init| ==> init[m].0 != init[j].0 by {
            forall m | j < m < |init| ensures init[m].0 != init[j].0 {
              assert init[m] == entries[m];
            }
          }
        }
      }
    }
  }

  /** Putting a new key appends it. */
  lemma {:induction false} PutAppends(entries: seq<(string, Js)>, key: string, value: Js)
    requires !HasKey(entries, key)
    ensures Put(entries, key, value) == entries + [(key, value)]
  {
    if |entries| > 0 {
      assert entries == [entries[0]] + entries[1..];
      HasKeyCons(entries[0], entries[1..], key);
      PutAppends(entries[1..], key, value);
    }
  }

  /** Entries whose keys are all different make an object of exactly those entries. */
  lemma {:induction false} FromDistinctEntries(entries: seq<(string, Js)>)
    requires DistinctKeys(entries)
    ensures FromEntries(entries) == entries
  {
    if |entries| > 0 {
      var init := entries[..|entries| - 1];
      var last := entries[|entries| - 1];
      assert entries == init + [last];
      DistinctSnoc(init, last);
      FromDistinctEntries(init);
      PutAppends(init, last.0, last.1);
    }
  }

  //
  // Locations and axes
  //

  /** An entry of an axis list: an axis with its name and default, or the divider the source dialog puts between global and glyph axes. */
  datatype AxisEntry = Axis(name: string, defaultValue: Js) | Divider

  /** The key `location[axis.name]` reads: a divider has no name, and `undefined` as a key reads "undefined". */
  function AxisKey(axis: AxisEntry): string {
    if axis.Axis? then axis.name else "undefined"
  }

  /** `axis.defaultValue`: `undefined` for a divider. */
  function AxisDefault(axis: AxisEntry): Js {
    if axis.Axis? then axis.defaultValue else Undefined
  }

  /** `location[key]`. */
  function Lookup(location: map<string, Js>, key: string): Js {
    if key in location then location[key] else Undefined
  }

  /** Whether `makeSparseLocation` keeps `axis`: its location value is defined and not the axis default. */
  predicate KeepsAxis(location: map<string, Js>, axis: AxisEntry) {
    Lookup(location, AxisKey(axis)) != Undefined && Lookup(location, AxisKey(axis)) != AxisDefault(axis)
  }

  /** The entries `makeSparseLocation` builds its object from, in axes order. */
  function SparseEntries(location: map<string, Js>, axes: seq<AxisEntry>): (r: seq<(string, Js)>)
    ensures |r| <= |axes|
  {
    if |axes| == 0 then []
    else
      var rest := SparseEntries(location, axes[..|axes| - 1]);
      var axis := axes[|axes| - 1];
      if KeepsAxis(location, axis) then rest + [(AxisKey(axis), location[AxisKey(axis)])] else rest
  }

  /** `makeSparseLocation`: the location restricted to the axes where it is set off the default. */
  function MakeSparseLocation(location: map<string, Js>, axes: seq<AxisEntry>): seq<(string, Js)> {
    FromEntries(SparseEntries(location, axes))
  }

  /** Every sparse entry is an axis kept, with the location's own value, and every axis kept has an entry. */
  lemma {:induction false} SparseEntriesAre(location: map<string, Js>, axes: seq<AxisEntry>)
    ensures forall e :: e in SparseEntries(location, axes) ==>
              e.0 in location && e.1 == location[e.0] && exists axis :: axis in axes && AxisKey(axis) == e.0 && KeepsAxis(location, axis)
    ensures forall axis :: axis in axes && KeepsAxis(location, axis) ==> HasKey(SparseEntries(location, axes), AxisKey(axis))
  {
    if |axes| > 0 {
      var init := axes[..|axes| - 1];
      var axis := axes[|axes| - 1];
      SparseEntriesAre(location, init);
      assert forall a :: a in init ==> a in axes;
      assert forall a :: a in axes ==> a in init || a == axis;
      var rest := SparseEntries(location, init);
      if KeepsAxis(location, axis) {
        var added := (AxisKey(axis), location[AxisKey(axis)]);
        forall k ensures HasKey(rest + [added], k) <==> HasKey(rest, k) || added.0 == k {
          HasKeySnoc(rest, added, k);
        }
      }
    }
  }

  /** A key of an entry list has a last entry. */
  lemma {:induction false} LastWithKey(entries: seq<(string, Js)>, key: string)
    requires HasKey(entries, key)
    ensures exists j :: 0 <= j < |entries| && entries[j].0 == key && forall m :: j < m < |entries| ==> entries[m].0 != key
  {
    var n := |entries|;
    if entries[n - 1].0 != key {
      var init := entries[..n - 1];
      assert entries == init + [entries[n - 1]];
      HasKeySnoc(init, entries[n - 1], key);
      LastWithKey(init, key);
      var j :| 0 <= j < |init| && init[j].0 == key && forall m :: j < m < |init| ==> init[m].0 != key;
      assert entries[j] == init[j];
      assert forall m :: j < m < n ==> entries[m].0 != key by {
        forall m | j < m < n ensures entries[m].0 != key {
          if m < n - 1 {
            assert entries[m] == init[m];
          }
        }
      }
    }
  }

  /**
   * A key is in the sparse location exactly when some axis with that key
   * is kept, and then it has the location's value.
   */
  lemma SparseLocationMeans(location: map<string, Js>, axes: seq<AxisEntry>, key: string)
    ensures HasKey(MakeSparseLocation(location, axes), key) <==> exists axis :: axis in axes && AxisKey(axis) == key && KeepsAxis(location, axis)
    ensures HasKey(MakeSparseLocation(location, axes), key) ==> ValueAt(MakeSparseLocation(location, axes), key) == location[key]
  {
    var entries := SparseEntries(location, axes);
    SparseEntriesAre(location, axes);
    FromEntriesFacts(entries);
    if HasKey(entries, key) {
      LastWithKey(entries, key);
      var j :| 0 <= j < |entries| && entries[j].0 == key && forall m :: j < m < |entries| ==> entries[m].0 != key;
      assert entries[j] in entries;
    }
  }

  /** A location read back from its entries, which stand for an object's own keys, each once. */
  function ToMap(entries: seq<(string, Js)>): (m: map<string, Js>)
    ensures forall k :: k in m <==> HasKey(entries, k)
  {
    map k | k in KeySet(entries) :: ValueAt(entries, k)
  }

  //
  // Axis info, source names and the dialog's axis list
  //

  /** The keys of the axis info gathered so far. */
  function InfoKeys(info: seq<(string, map<string, Js>)>): (keys: set<string>)
    ensures forall b :: b in keys <==> exists k :: 0 <= k < |info| && info[k].0 == b
  {
    set k | 0 <= k < |info| :: info[k].0
  }

  /** The base name of an axis; `baseName` stands for `getAxisBaseName` applied to `axis.name`. */
  function BaseOf(axis: map<string, Js>, baseName: Js -> string): string {
    baseName(Prop(Obj(axis), "name").value)
  }

  /**
   * The axis info of `getAxisInfoFromGlyph` for a list of axes, keyed by
   * base name in the order the base names first appear: the first axis
   * with a base name, copied, with the base name as its name.
   */
  function AxisInfo(axes: seq<map<string, Js>>, baseName: Js -> string): seq<(string, map<string, Js>)> {
    if |axes| == 0 then []
    else
      var info := AxisInfo(axes[..|axes| - 1], baseName);
      var axis := axes[|axes| - 1];
      var b := BaseOf(axis, baseName);
      if b in InfoKeys(info) then info else info + [(b, axis["name" := Str(b)])]
  }

  /** Some axis has base name `b`. */
  predicate IsBaseIn(axes: seq<map<string, Js>>, baseName: Js -> string, b: string) {
    exists k :: 0 <= k < |axes| && BaseOf(axes[k], baseName) == b
  }

  /** Every axis's base name is a key of the axis info, and nothing else is. */
  lemma {:induction false} AxisInfoKeys(axes: seq<map<string, Js>>, baseName: Js -> string)
    ensures forall b :: b in InfoKeys(AxisInfo(axes, baseName)) <==> IsBaseIn(axes, baseName, b)
  {
    if |axes| > 0 {
      var init := axes[..|axes| - 1];
      AxisInfoKeys(init, baseName);
      var info := AxisInfo(init, baseName);
      var b := BaseOf(axes[|axes| - 1], baseName);
      assert InfoKeys(AxisInfo(axes, baseName)) == InfoKeys(info) + {b} by {
        if b !in InfoKeys(info) {
          var r := info + [(b, axes[|axes| - 1]["name" := Str(b)])];
          forall c ensures c in InfoKeys(r) <==> c in InfoKeys(info) || c == b {
            if c in InfoKeys(info) {
              var e :| 0 <= e < |info| && info[e].0 == c;
              assert r[e] == info[e];
            }
            assert r[|info|].0 == b;
          }
        }
      }
      forall c ensures IsBaseIn(axes, baseName, c) <==> IsBaseIn(init, baseName, c) || c == b {
        if IsBaseIn(axes, baseName, c) {
          var k :| 0 <= k < |axes| && BaseOf(axes[k], baseName) == c;
          if k < |init| {
            assert axes[k] == init[k];
          }
        }
        if IsBaseIn(init, baseName, c) {
          var k :| 0 <= k < |init| && BaseOf(init[k], baseName) == c;
          assert axes[k] == init[k];
        }
      }
    }
  }

  /** Base names appear once each in the axis info. */
  lemma {:induction false} AxisInfoDistinct(axes: seq<map<string, Js>>, baseName: Js -> string)
    ensures forall a, b :: 0 <= a < b < |AxisInfo(axes, baseName)| ==> AxisInfo(axes, baseName)[a].0 != AxisInfo(axes, baseName)[b].0
  {
    if |axes| > 0 {
      var init := axes[..|axes| - 1];
      AxisInfoDistinct(init, baseName);
      var info := AxisInfo(init, baseName);
      var b := BaseOf(axes[|axes| - 1], baseName);
      if b !in InfoKeys(info) {
        var r := info + [(b, axes[|axes| - 1]["name" := Str(b)])];
        forall a, c | 0 <= a < c < |r| ensures r[a].0 != r[c].0 {
          assert r[a] == info[a];
          if c < |info| {
            assert r[c] == info[c];
            assert info[a].0 != info[c].0;
          } else {
            assert r[c] == (b, axes[|axes| - 1]["name" := Str(b)]);
            assert info[a].0 in InfoKeys(info);
          }
        }
      }
    }
  }

  /** The entry of a base name is the first axis with that base name, with the base name as its name. */
  lemma {:induction false} AxisInfoFirst(axes: seq<map<string, Js>>, baseName: Js -> string, e: nat)
    requires e < |AxisInfo(axes, baseName)|
    ensures var entry := AxisInfo(axes, baseName)[e];
      exists k :: 0 <= k < |axes| && BaseOf(axes[k], baseName) == entry.0 && entry.1 == axes[k]["name" := Str(entry.0)]
        && forall m :: 0 <= m < k ==> BaseOf(axes[m], baseName) != entry.0
  {
    var init := axes[..|axes| - 1];
    var info := AxisInfo(init, baseName);
    var entry := AxisInfo(axes, baseName)[e];
    assert forall m :: 0 <= m < |init| ==> axes[m] == init[m];
    if e < |info| {
      AxisInfoFirst(init, baseName, e);
      assert entry == info[e];
      var k :| 0 <= k < |init| && BaseOf(init[k], baseName) == entry.0 && entry.1 == init[k]["name" := Str(entry.0)]
        && forall m :: 0 <= m < k ==> BaseOf(init[m], baseName) != entry.0;
      assert axes[k] == init[k];
    } else {
      var k := |axes| - 1;
      AxisInfoKeys(init, baseName);
      assert forall m :: 0 <= m < k ==> BaseOf(axes[m], baseName) != entry.0 by {
        forall m | 0 <= m < k ensures BaseOf(axes[m], baseName) != entry.0 {
          assert BaseOf(init[m], baseName) in InfoKeys(info);
        }
      }
    }
  }

  /**
   * `getAxisInfoFromGlyph`: one axis per base name, the first axis with
   * that base name renamed to it; no glyph gives none. `baseName` stands
   * for `getAxisBaseName`.
   */
  method GetAxisInfoFromGlyph(glyph: VariableGlyph?, baseName: Js -> string) returns (result: seq<map<string, Js>>)
    ensures var axes := if glyph == null then [] else glyph.axes;
            var info := AxisInfo(axes, baseName);
            result == seq(|info|, k requires 0 <= k < |info| => info[k].1)
  {
    var axes := if glyph == null then [] else glyph.axes;
    var info: seq<(string, map<string, Js>)> := [];
    var i := 0;
    while i < |axes|
      invariant i <= |axes|
      invariant info == AxisInfo(axes[..i], baseName)
    {
      var axis := axes[i];
      var b := baseName(Prop(Obj(axis), "name").value);
      assert axes[..i + 1][..i] == axes[..i];
      if b !in InfoKeys(info) {
        info := info + [(b, axis["name" := Str(b)])];
      }
      i := i + 1;
    }
    assert axes[..|axes|] == axes;
    result := seq(|info|, k requires 0 <= k < |info| => info[k].1);
  }

  /** The "name=value" parts of a suggested source name; `valueText` stands for rounding the value to one decimal and printing it. */
  function NameParts(location: seq<(string, Js)>, valueText: Js -> string): (parts: seq<string>)
    ensures |parts| == |location|
    ensures forall k :: 0 <= k < |location| ==> parts[k] == location[k].0 + "=" + valueText(location[k].1)
  {
    seq(|location|, k requires 0 <= k < |location| => location[k].0 + "=" + valueText(location[k].1))
  }

  /** `suggestedSourceNameFromLocation`: the "name=value" parts joined by ",", or "default" for an empty location. */
  function SuggestedSourceName(location: seq<(string, Js)>, valueText: Js -> string): string {
    if |location| == 0 then "default" else EditBehavior.Join(NameParts(location, valueText), ',')
  }

  /** A joined list begins with its first part. */
  lemma {:induction false} JoinStartsWithFirst(parts: seq<string>, sep: char)
    requires |parts| >= 1
    ensures |EditBehavior.Join(parts, sep)| >= |parts[0]| && EditBehavior.Join(parts, sep)[..|parts[0]|] == parts[0]
  {
    if |parts| > 1 {
      JoinStartsWithFirst(parts[..|parts| - 1], sep);
    }
  }

  /** The suggested name is "default" exactly for the empty location: any other holds an "=". */
  lemma SuggestedNameIsDefault(location: seq<(string, Js)>, valueText: Js -> string)
    ensures SuggestedSourceName(location, valueText) == "default" <==> |location| == 0
  {
    if |location| > 0 {
      var parts := NameParts(location, valueText);
      JoinStartsWithFirst(parts, ',');
      var r := SuggestedSourceName(location, valueText);
      assert r[..|parts[0]|] == parts[0];
      assert parts[0][|location[0].0|] == '=';
      assert '=' in r;
      assert '=' !in "default";
    }
  }

  /** When no name and no value text holds a ",", the suggested name splits back into its parts. */
  lemma SuggestedNameSplits(location: seq<(string, Js)>, valueText: Js -> string)
    requires |location| > 0
    requires forall k :: 0 <= k < |location| ==> ',' !in location[k].0 && ',' !in valueText(location[k].1)
    ensures EditBehavior.Split(SuggestedSourceName(location, valueText), ',') == NameParts(location, valueText)
  {
    var parts := NameParts(location, valueText);
    forall k | 0 <= k < |parts| ensures ',' !in parts[k] {
      assert parts[k] == location[k].0 + "=" + valueText(location[k].1);
    }
    EditBehavior.JoinSplit(parts, ',');
  }

  /** `localAxisNames.includes(axis.name)` for one axis. */
  function AxisName(axis: AxisEntry): Option<string> {
    if axis.Axis? then Some(axis.name) else None
  }

  /** The global axes whose names are not names of glyph axes, in order. */
  function GlobalOnly(globalAxes: seq<AxisEntry>, localAxes: seq<AxisEntry>): (r: seq<AxisEntry>)
    ensures forall axis :: axis in r <==> axis in globalAxes && forall l :: l in localAxes ==> AxisName(l) != AxisName(axis)
    ensures |r| <= |globalAxes|
  {
    if |globalAxes| == 0 then []
    else
      var rest := GlobalOnly(globalAxes[1..], localAxes);
      var axis := globalAxes[0];
      assert forall a :: a in globalAxes <==> a == axis || a in globalAxes[1..];
      if forall l :: l in localAxes ==> AxisName(l) != AxisName(axis) then [axis] + rest else rest
  }

  /**
   * `_sourcePropertiesLocationAxes`: the global axes not shadowed by a
   * glyph axis, mapped to designspace coordinates (`toDesignspace`
   * stands for `mapAxesFromUserSpaceToDesignspace`), then a divider when
   * there are both global and glyph axes, then the glyph axes.
   */
  function LocationAxes(globalAxes: seq<AxisEntry>, localAxes: seq<AxisEntry>, toDesignspace: seq<AxisEntry> -> seq<AxisEntry>): (r: seq<AxisEntry>)
    ensures var g := toDesignspace(GlobalOnly(globalAxes, localAxes));
      && |r| == |g| + |localAxes| + (if |g| > 0 && |localAxes| > 0 then 1 else 0)
      && r[..|g|] == g
      && r[|r| - |localAxes|..] == localAxes
      && (|g| > 0 && |localAxes| > 0 ==> r[|g|] == Divider)
  {
    var g := toDesignspace(GlobalOnly(globalAxes, localAxes));
    g + (if |g| > 0 && |localAxes| > 0 then [Divider] else []) + localAxes
  }

  //
  // The source dialog's warnings
  //

  /** The warnings of `validateInput`. */
  datatype Warning = EmptyName | NameNotUnique | LocationNotUnique

  /**
   * The location strings of all sources, without the one of the
   * source being edited (a new source has no name yet and removes
   * nothing). `locationText` stands for `locationToString`.
   */
  function SourceLocations(sources: seq<Source>, axes: seq<AxisEntry>, sourceName: string, location: map<string, Js>,
                           locationText: seq<(string, Js)> -> string): (r: set<string>)
    ensures forall t :: t in r <==>
              (exists s :: s in sources && locationText(MakeSparseLocation(s.location, axes)) == t)
              && !(|sourceName| > 0 && t == locationText(MakeSparseLocation(location, axes)))
  {
    var all := set s | s in sources :: locationText(MakeSparseLocation(s.location, axes));
    if |sourceName| > 0 then all - {locationText(MakeSparseLocation(location, axes))} else all
  }

  /**
   * `validateInput`: an empty name; else a name another source has,
   * unless it is the name the dialog started from; and a location whose
   * string is among the other sources' location strings.
   */
  function ValidateInput(editedName: string, sourceName: string, sources: seq<Source>,
                         locationString: string, sourceLocations: set<string>): (r: seq<Warning>)
    ensures EmptyName in r <==> editedName == ""
    ensures NameNotUnique in r <==> editedName != "" && editedName != sourceName && exists s :: s in sources && s.name == Str(editedName)
    ensures LocationNotUnique in r <==> locationString in sourceLocations
    ensures |r| <= 2 && (|r| == 2 ==> r[1] == LocationNotUnique)
  {
    var nameWarnings :=
      if editedName == "" then [EmptyName]
      else if editedName != sourceName && exists s :: s in sources && s.name == Str(editedName) then [NameNotUnique]
      else [];
    nameWarnings + (if locationString in sourceLocations then [LocationNotUnique] else [])
  }

  /**
   * The location warning in terms of the sources: the edited location
   * reads like the location of some source, and it is not the location
   * the edited source started from.
   */
  lemma LocationWarningMeans(editedName: string, sourceName: string, sources: seq<Source>, axes: seq<AxisEntry>,
                             location: map<string, Js>, edited: map<string, Js>, locationText: seq<(string, Js)> -> string)
    ensures var text := locationText(MakeSparseLocation(edited, axes));
      LocationNotUnique in ValidateInput(editedName, sourceName, sources, text, SourceLocations(sources, axes, sourceName, location, locationText))
      <==> (exists s :: s in sources && locationText(MakeSparseLocation(s.location, axes)) == text)
           && !(|sourceName| > 0 && text == locationText(MakeSparseLocation(location, axes)))
  {
  }

  //
  // Sources and layers
  //

  /** `glyph.layers[name]` for a source's layer name; only string names are modelled as keys. */
  function LayerKey(name: Js): Option<string> {
    if name.Str? then Some(name.s) else None
  }

  /** How many sources use the layer `name` (the `reduce` of `removeSource`). */
  function LayerUses(sources: seq<Source>, name: Js): (n: nat)
    ensures n <= |sources|
  {
    if |sources| == 0 then 0
    else LayerUses(sources[..|sources| - 1], name) + (if sources[|sources| - 1].layerName == name then 1 else 0)
  }

  /** A layer no source uses has count 0; one more use counts one more. */
  lemma {:induction false} LayerUsesZero(sources: seq<Source>, name: Js)
    ensures LayerUses(sources, name) == 0 <==> forall s :: s in sources ==> s.layerName != name
  {
    if |sources| > 0 {
      var init := sources[..|sources| - 1];
      LayerUsesZero(init, name);
      assert forall s :: s in sources <==> s in init || s == sources[|sources| - 1];
    }
  }

  /** Removing one entry removes its count. */
  lemma {:induction false} LayerUsesRemove(sources: seq<Source>, i: nat, name: Js)
    requires i < |sources|
    ensures LayerUses(sources, name) == LayerUses(RemoveAt(sources, i), name) + (if sources[i].layerName == name then 1 else 0)
  {
    var n := |sources|;
    if i < n - 1 {
      var init := sources[..n - 1];
      LayerUsesRemove(init, i, name);
      assert RemoveAt(sources, i)[..n - 2] == RemoveAt(init, i);
      assert RemoveAt(sources, i)[n - 2] == sources[n - 1];
    } else {
      assert RemoveAt(sources, i) == sources[..n - 1];
    }
  }

  /**
   * When exactly one source uses its layer, as `removeSource` requires
   * before it offers to delete the layer, no remaining source uses it.
   */
  lemma RemovedLayerUnused(sources: seq<Source>, i: nat)
    requires i < |sources| && LayerUses(sources, sources[i].layerName) == 1
    ensures forall s :: s in RemoveAt(sources, i) ==> s.layerName != sources[i].layerName
  {
    LayerUsesRemove(sources, i, sources[i].layerName);
    LayerUsesZero(RemoveAt(sources, i), sources[i].layerName);
  }

  /**
   * `removeSource` once the dialog has run: the source at `sourceIndex`
   * is removed and, when the box to delete its layer is checked, the
   * layer too. The box starts checked exactly when this is the only
   * source using the layer and cannot be checked otherwise; `unticked`
   * says the user cleared it, `confirmed` that the dialog was confirmed.
   * An index without a source raises before anything changes.
   */
  method RemoveSource(glyph: VariableGlyph, sourceIndex: int, unticked: bool, confirmed: bool) returns (r: Outcome<JsError>)
    modifies glyph
    ensures r.Fail? <==> !(0 <= sourceIndex < old(|glyph.sources|))
    ensures r.Fail? || !confirmed ==> glyph.sources == old(glyph.sources) && glyph.layers == old(glyph.layers)
    ensures r.Pass? && confirmed ==>
      var source := old(glyph.sources[sourceIndex]);
      var deleteLayer := LayerUses(old(glyph.sources), source.layerName) == 1 && !unticked;
      var key := LayerKey(source.layerName);
      && glyph.sources == RemoveAt(old(glyph.sources), sourceIndex)
      && glyph.layers == (if key.Some? && key.value in old(glyph.layers) && deleteLayer then old(glyph.layers) - {key.value} else old(glyph.layers))
    ensures glyph.name == old(glyph.name) && glyph.axes == old(glyph.axes) && glyph.customData == old(glyph.customData)
  {
    if !(0 <= sourceIndex < |glyph.sources|) {
      return Fail(TypeError);
    }
    var source := glyph.sources[sourceIndex];
    var canDeleteLayer := LayerUses(glyph.sources, source.layerName) == 1;
    var checked := canDeleteLayer && !unticked;
    if !confirmed {
      return Pass;
    }
    var key := LayerKey(source.layerName);
    var layerExists := key.Some? && key.value in glyph.layers;
    glyph.sources := RemoveAt(glyph.sources, sourceIndex);
    if layerExists && checked {
      glyph.layers := glyph.layers - {key.value};
    }
    r := Pass;
  }

  /** The source `addSource` appends: `Source.fromObject` of its name, layer name and location. */
  function NewSource(sourceName: string, layerName: string, location: seq<(string, Js)>): (s: Source)
    ensures s.name == Str(sourceName) && s.layerName == Str(layerName) && !s.inactive && s.customData == Obj(map[])
    ensures s.location == ToMap(location)
    ensures forall k :: k in s.location <==> HasKey(location, k)
    ensures forall k :: k in s.location ==> s.location[k] == ValueAt(location, k)
  {
    SourceFromObject(Obj(map["name" := Str(sourceName), "layerName" := Str(layerName), "location" := Obj(ToMap(location))])).value
  }

  /**
   * The edit `addSource` makes once the dialog has given a name, a layer
   * name and a location: the new source is appended, and a layer made
   * from `instance` (the glyph instantiated at the location and copied)
   * is added only when the layer name is not among `layerNames`, the
   * layer names the dialog saw. Making the layer raises when the
   * instance's components cannot be copied; the source is appended
   * already.
   */
  method AddSource(glyph: VariableGlyph, sourceName: string, layerName: string, location: seq<(string, Js)>,
                   layerNames: set<string>, instance: StaticGlyph) returns (r: Outcome<JsError>)
    modifies glyph
    ensures glyph.sources == old(glyph.sources) + [NewSource(sourceName, layerName, location)]
    ensures r.Fail? <==> layerName !in layerNames && !ComponentsCopyable(instance.components)
    ensures layerName in layerNames || r.Fail? ==> glyph.layers == old(glyph.layers)
    ensures layerName !in layerNames && r.Pass? ==>
      && glyph.layers.Keys == old(glyph.layers).Keys + {layerName}
      && (forall n :: n in old(glyph.layers) && n != layerName ==> glyph.layers[n] == old(glyph.layers)[n])
      && fresh(NewObjects(glyph.layers[layerName]))
      && IsLayerOf(glyph.layers[layerName], LayerObject(Some(instance.AsObject()), Undefined))
    ensures glyph.name == old(glyph.name) && glyph.axes == old(glyph.axes) && glyph.customData == old(glyph.customData)
  {
    glyph.sources := glyph.sources + [NewSource(sourceName, layerName, location)];
    if layerName !in layerNames {
      var layer := LayerFromObject(LayerObject(Some(instance.AsObject()), Undefined));
      if layer.Err? {
        return Fail(layer.error);
      }
      glyph.layers := glyph.layers[layerName := layer.value];
    }
    r := Pass;
  }

  /** The source list after the layer `oldName` is renamed to `newName`: every source using it is repointed. */
  function Repointed(sources: seq<Source>, oldName: Js, newName: Js): (r: seq<Source>)
    ensures |r| == |sources|
    ensures forall k :: 0 <= k < |sources| ==>
              r[k] == if sources[k].layerName == oldName then sources[k].(layerName := newName) else sources[k]
  {
    seq(|sources|, k requires 0 <= k < |sources| =>
      if sources[k].layerName == oldName then sources[k].(layerName := newName) else sources[k])
  }

  /** After a rename to a different name no source uses the old name, and the new name's uses add up. */
  lemma RepointedUses(sources: seq<Source>, oldName: Js, newName: Js)
    requires oldName != newName
    ensures forall s :: s in Repointed(sources, oldName, newName) ==> s.layerName != oldName
    ensures LayerUses(Repointed(sources, oldName, newName), newName) == LayerUses(sources, newName) + LayerUses(sources, oldName)
  {
    RepointedCounts(sources, oldName, newName);
    LayerUsesZero(Repointed(sources, oldName, newName), oldName);
  }

  lemma {:induction false} RepointedCounts(sources: seq<Source>, oldName: Js, newName: Js)
    requires oldName != newName
    ensures LayerUses(Repointed(sources, oldName, newName), newName) == LayerUses(sources, newName) + LayerUses(sources, oldName)
    ensures LayerUses(Repointed(sources, oldName, newName), oldName) == 0
  {
    if |sources| > 0 {
      var n := |sources|;
      var init := sources[..n - 1];
      var r := Repointed(sources, oldName, newName);
      RepointedCounts(init, oldName, newName);
      assert r[..n - 1] == Repointed(init, oldName, newName);
      var last := sources[n - 1];
      assert r[n - 1] == if last.layerName == oldName then last.(layerName := newName) else last;
    }
  }

  /**
   * The edit `editSourceProperties` makes: the source at `sourceIndex`
   * gets the new location, name and layer name. When the layer name
   * changes to one that is not among `layerNames`, the layer names the
   * dialog saw, the old layer is renamed, if it exists, and every
   * source using the old name is repointed; otherwise only this source
   * changes. An index without a source raises before anything changes.
   */
  method EditSourceProperties(glyph: VariableGlyph, sourceIndex: int, newLocation: map<string, Js>, sourceName: string,
                              layerName: string, layerNames: set<string>) returns (r: Outcome<JsError>)
    modifies glyph
    ensures r.Fail? <==> !(0 <= sourceIndex < old(|glyph.sources|))
    ensures r.Fail? ==> glyph.sources == old(glyph.sources) && glyph.layers == old(glyph.layers)
    ensures r.Pass? ==>
      var source := old(glyph.sources[sourceIndex]);
      var edited := source.(location := newLocation, name := Str(sourceName), layerName := Str(layerName));
      var rename := Str(layerName) != source.layerName && layerName !in layerNames;
      var key := LayerKey(source.layerName);
      && glyph.sources == (if rename then Repointed(old(glyph.sources)[sourceIndex := edited], source.layerName, Str(layerName))
                           else old(glyph.sources)[sourceIndex := edited])
      && glyph.layers == (if rename && key.Some? && key.value in old(glyph.layers)
                          then (old(glyph.layers) - {key.value})[layerName := old(glyph.layers)[key.value]]
                          else old(glyph.layers))
    ensures glyph.name == old(glyph.name) && glyph.axes == old(glyph.axes) && glyph.customData == old(glyph.customData)
  {
    if !(0 <= sourceIndex < |glyph.sources|) {
      return Fail(TypeError);
    }
    var source := glyph.sources[sourceIndex];
    if source.location != newLocation {
      source := source.(location := newLocation);
    }
    if Str(sourceName) != source.name {
      source := source.(name := Str(sourceName));
    }
    var oldLayerName := source.layerName;
    if Str(layerName) != oldLayerName {
      source := source.(layerName := Str(layerName));
      glyph.sources := glyph.sources[sourceIndex := source];
      if layerName !in layerNames {
        var key := LayerKey(oldLayerName);
        if key.Some? && key.value in glyph.layers {
          var layer := glyph.layers[key.value];
          glyph.layers := (glyph.layers - {key.value})[layerName := layer];
        }
        RepointSources(glyph, oldLayerName, Str(layerName));
      }
    } else {
      glyph.sources := glyph.sources[sourceIndex := source];
    }
    r := Pass;
  }

  /** The loop of `editSourceProperties` that repoints every source using the old layer name. */
  method RepointSources(glyph: VariableGlyph, oldName: Js, newName: Js)
    modifies glyph
    ensures glyph.sources == Repointed(old(glyph.sources), oldName, newName)
    ensures glyph.layers == old(glyph.layers)
    ensures glyph.name == old(glyph.name) && glyph.axes == old(glyph.axes) && glyph.customData == old(glyph.customData)
  {
    var k := 0;
    while k < |glyph.sources|
      invariant k <= |glyph.sources| == old(|glyph.sources|)
      invariant forall j :: 0 <= j < k ==> glyph.sources[j] == Repointed(old(glyph.sources), oldName, newName)[j]
      invariant forall j :: k <= j < |glyph.sources| ==> glyph.sources[j] == old(glyph.sources)[j]
      invariant glyph.layers == old(glyph.layers)
      invariant glyph.name == old(glyph.name) && glyph.axes == old(glyph.axes) && glyph.customData == old(glyph.customData)
    {
      if glyph.sources[k].layerName == oldName {
        glyph.sources := glyph.sources[k := glyph.sources[k].(layerName := newName)];
      }
      k := k + 1;
    }
  }
}
