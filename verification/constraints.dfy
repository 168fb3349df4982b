/**
 * The constraint set: per-column constraints derived from the inferred
 * tables, the survival-pair cross-column constraint, and the merge of a
 * user overlay on top of the generated set.
 */
module Constraints {
  import opened Wrappers
  import opened Strings
  import opened Json
  import opened Numbers
  import opened Classifier

  /** Field name to value: one column's constraint block. */
  type Rules = map<string, Value>

  datatype ConstraintSet = ConstraintSet(
    columns: map<string, Rules>,
    cross: seq<Value>,
    rowGroups: seq<Value>)

  /** A bound as the JSON number the schema carries: an int once rounded, else a float. */
  function BoundValue(x: real, integral: bool): (v: Value)
    ensures integral ==> v.Int?
    ensures !integral ==> v == Num(x)
    ensures integral && IsIntegral(x) ==> v.i as real == x
  {
    if integral then Int(x.Floor) else Num(x)
  }

  /** The generated block of one column. */
  function ColumnRules(col: string, t: ColType, cats: map<string, seq<string>>, bounds: map<string, Bounds>,
                       guids: seq<string>): (c: Rules)
    ensures Get(c, "type") == Str(TypeName(t))
    ensures "allowed_values" in c <==> col in cats
    ensures col in cats ==> c["allowed_values"] == StrArr(cats[col])
    ensures ("min" in c <==> col in bounds) && ("max" in c <==> col in bounds)
    ensures col in bounds ==> c["min"] == BoundValue(bounds[col].lo, bounds[col].integral)
    ensures col in bounds ==> c["max"] == BoundValue(bounds[col].hi, bounds[col].integral)
    ensures "semantic_role" in c <==> col in guids
    ensures col in guids ==> c["semantic_role"] == Str("identifier")
    ensures c.Keys <= {"type", "allowed_values", "min", "max", "semantic_role"}
  {
    var c0 := map["type" := Str(TypeName(t))];
    var c1 := if col in cats then c0["allowed_values" := StrArr(cats[col])] else c0;
    var c2 := if col in bounds then
                c1["min" := BoundValue(bounds[col].lo, bounds[col].integral)]
                  ["max" := BoundValue(bounds[col].hi, bounds[col].integral)]
              else c1;
    if col in guids then c2["semantic_role" := Str("identifier")] else c2
  }

  /** The generated block of every column, keyed by column name. */
  function GeneratedColumns(types: map<string, ColType>, cats: map<string, seq<string>>, bounds: map<string, Bounds>,
                            guids: seq<string>): (r: map<string, Rules>)
    ensures r.Keys == types.Keys
    ensures forall col :: col in types ==> r[col] == ColumnRules(col, types[col], cats, bounds, guids)
  {
    map col | col in types :: ColumnRules(col, types[col], cats, bounds, guids)
  }

  /** The survival pair named by a target spec, when its kind is `survival_pair` and it lists two targets. */
  function SurvivalPair(spec: Option<map<string, Value>>, repr: Repr): (p: Option<(string, string)>)
    ensures p.Some? ==> spec.Some? && PyStr(Get(spec.value, "kind"), repr) == "survival_pair"
    ensures p.Some? ==> var ts := Get(spec.value, "targets");
      ts.Arr? && |ts.items| >= 2 && p.value == (PyStr(ts.items[0], repr), PyStr(ts.items[1], repr))
    ensures p.None? && spec.Some? && PyStr(Get(spec.value, "kind"), repr) == "survival_pair" ==>
      !(Get(spec.value, "targets").Arr? && |Get(spec.value, "targets").items| >= 2)
  {
    if spec.Some? && PyStr(Get(spec.value, "kind"), repr) == "survival_pair" then
      var ts := Get(spec.value, "targets");
      if ts.Arr? && |ts.items| >= 2 then Some((PyStr(ts.items[0], repr), PyStr(ts.items[1], repr)))
      else None
    else None
  }

  const SurvivalName: string := "survival_pair_definition"

  /** The cross-column constraint recorded for a survival pair. */
  function SurvivalConstraint(event: string, time: string): Value {
    Obj(map[
      "name" := Str(SurvivalName),
      "type" := Str("survival_pair"),
      "event_col" := Str(event),
      "time_col" := Str(time),
      "event_allowed_values" := Arr([Int(0), Int(1)]),
      "time_min_exclusive" := Int(0)])
  }

  /** The generated block of a column, or the given default type for a name that is not a column. */
  function BlockOr(columns: map<string, Rules>, col: string, types: map<string, ColType>, default: string): Rules {
    if col in columns then columns[col]
    else map["type" := Str(if col in types then TypeName(types[col]) else default)]
  }

  /** Adds the survival rules: the event takes values "0"/"1", the time is strictly positive. */
  function AddSurvival(columns: map<string, Rules>, types: map<string, ColType>, event: string, time: string)
    : (r: map<string, Rules>)
    ensures r.Keys == columns.Keys + {event, time}
    ensures Get(r[event], "allowed_values") == StrArr(["0", "1"]) || event == time
    ensures Get(r[time], "min_exclusive") == Int(0)
    ensures event != time ==>
      r[event] == BlockOr(columns, event, types, "categorical")["allowed_values" := StrArr(["0", "1"])]
    ensures event != time ==>
      r[time] == BlockOr(columns, time, types, "continuous")["min_exclusive" := Int(0)]
    ensures event == time ==>
      r[time] == BlockOr(columns, event, types, "categorical")["allowed_values" := StrArr(["0", "1"])]
                                                             ["min_exclusive" := Int(0)]
    ensures forall c :: c in columns && c != event && c != time ==> r[c] == columns[c]
  {
    var ec := BlockOr(columns, event, types, "categorical");
    var c1 := columns[event := ec["allowed_values" := StrArr(["0", "1"])]];
    var tc := BlockOr(c1, time, types, "continuous");
    c1[time := tc["min_exclusive" := Int(0)]]
  }

  /** `_build_constraints`. */
  function Build(types: map<string, ColType>, cats: map<string, seq<string>>, bounds: map<string, Bounds>,
                 guids: seq<string>, spec: Option<map<string, Value>>, repr: Repr): (cs: ConstraintSet)
    ensures cs.rowGroups == []
    ensures |cs.cross| <= 1
  {
    var base := GeneratedColumns(types, cats, bounds, guids);
    var pair := SurvivalPair(spec, repr);
    if pair.Some? then
      ConstraintSet(AddSurvival(base, types, pair.value.0, pair.value.1),
                    [SurvivalConstraint(pair.value.0, pair.value.1)], [])
    else ConstraintSet(base, [], [])
  }

  /**
   * Without a survival pair every column gets exactly its generated block:
   * its type, its published categories and bounds, and the identifier role
   * for GUID-like columns, and nothing is generated for non-columns.
   */
  lemma BuildColumns(types: map<string, ColType>, cats: map<string, seq<string>>, bounds: map<string, Bounds>,
                     guids: seq<string>, spec: Option<map<string, Value>>, repr: Repr)
    requires SurvivalPair(spec, repr).None?
    ensures var cs := Build(types, cats, bounds, guids, spec, repr);
      && cs.columns.Keys == types.Keys
      && cs.cross == []
      && forall col :: col in types ==> cs.columns[col] == ColumnRules(col, types[col], cats, bounds, guids)
  {
  }

  /**
   * With a survival pair the event column keeps its generated block and admits
   * "0"/"1", the time column keeps its block and is strictly positive (one
   * block carries both when they name the same column), exactly one
   * cross-column constraint names the pair, and every other column keeps its
   * block.
   */
  lemma BuildSurvival(types: map<string, ColType>, cats: map<string, seq<string>>, bounds: map<string, Bounds>,
                      guids: seq<string>, spec: Option<map<string, Value>>, repr: Repr)
    requires SurvivalPair(spec, repr).Some?
    ensures var cs := Build(types, cats, bounds, guids, spec, repr);
      var (event, time) := SurvivalPair(spec, repr).value;
      && cs.columns.Keys == types.Keys + {event, time}
      && cs.cross == [SurvivalConstraint(event, time)]
      && (event != time ==> Get(cs.columns[event], "allowed_values") == StrArr(["0", "1"]))
      && Get(cs.columns[time], "min_exclusive") == Int(0)
      && (event != time && event in types ==>
            cs.columns[event] == ColumnRules(event, types[event], cats, bounds, guids)["allowed_values" := StrArr(["0", "1"])])
      && (event != time && time in types ==>
            cs.columns[time] == ColumnRules(time, types[time], cats, bounds, guids)["min_exclusive" := Int(0)])
      && (event == time && event in types ==>
            cs.columns[event] == ColumnRules(event, types[event], cats, bounds, guids)
                                   ["allowed_values" := StrArr(["0", "1"])]["min_exclusive" := Int(0)])
      && (event == time && event !in types ==>
            cs.columns[event] == map["type" := Str("categorical"), "allowed_values" := StrArr(["0", "1"]),
                                     "min_exclusive" := Int(0)])
      && forall col :: col in types && col != event && col != time ==>
           cs.columns[col] == ColumnRules(col, types[col], cats, bounds, guids)
  {
    var base := GeneratedColumns(types, cats, bounds, guids);
    var (event, time) := SurvivalPair(spec, repr).value;
    assert Build(types, cats, bounds, guids, spec, repr)
        == ConstraintSet(AddSurvival(base, types, event, time), [SurvivalConstraint(event, time)], []);
    assert event in types ==> BlockOr(base, event, types, "categorical") == ColumnRules(event, types[event], cats, bounds, guids);
    assert time in types ==> BlockOr(base, time, types, "continuous") == ColumnRules(time, types[time], cats, bounds, guids);
    assert event !in types ==> BlockOr(base, event, types, "categorical") == map["type" := Str("categorical")];
  }

  /** A survival event that is not a column defaults to `categorical`, a time to `continuous`. */
  lemma SurvivalDefaults(types: map<string, ColType>, cats: map<string, seq<string>>, bounds: map<string, Bounds>,
                         guids: seq<string>, spec: Option<map<string, Value>>, repr: Repr)
    requires SurvivalPair(spec, repr).Some?
    requires SurvivalPair(spec, repr).value.0 != SurvivalPair(spec, repr).value.1
    ensures var cs := Build(types, cats, bounds, guids, spec, repr);
      var (event, time) := SurvivalPair(spec, repr).value;
      && (event !in types ==>
            cs.columns[event] == map["type" := Str("categorical"), "allowed_values" := StrArr(["0", "1"])])
      && (time !in types ==> cs.columns[time] == map["type" := Str("continuous"), "min_exclusive" := Int(0)])
  {
  }

  // ---------------------------------------------------------------- merge

  /** The columns an overlay touches: those whose rules are objects. */
  function OverlayColumns(user: map<string, Value>): set<string> {
    set c | c in user && user[c].Obj?
  }

  /** Per-column, field-by-field overlay: the user's fields win, the others stay. */
  function MergeColumns(base: map<string, Rules>, user: map<string, Value>): (r: map<string, Rules>)
    ensures r.Keys == base.Keys + OverlayColumns(user)
  {
    map col | col in base.Keys + OverlayColumns(user) ::
      if col in user && user[col].Obj? then
        (if col in base then base[col] else map[]) + user[col].fields
      else base[col]
  }

  /** `_merge_constraints`: the overlay document, as decoded JSON, on top of the generated set. */
  function Merge(base: ConstraintSet, user: map<string, Value>): (r: ConstraintSet)
    ensures |r.cross| >= |base.cross| && r.cross[..|base.cross|] == base.cross
    ensures |r.rowGroups| >= |base.rowGroups| && r.rowGroups[..|base.rowGroups|] == base.rowGroups
    ensures base.columns.Keys <= r.columns.Keys
  {
    var cc := Get(user, "column_constraints");
    var xc := Get(user, "cross_column_constraints");
    var rg := Get(user, "row_group_constraints");
    ConstraintSet(
      if cc.Obj? then MergeColumns(base.columns, cc.fields) else base.columns,
      if xc.Arr? then base.cross + xc.items else base.cross,
      if rg.Arr? then base.rowGroups + rg.items else base.rowGroups)
  }

  /**
   * Field-level semantics of the merge: an overlay field wins, a field the
   * overlay does not set keeps its generated value, no other field appears,
   * and columns the overlay does not touch are unchanged.
   */
  lemma MergeFields(base: ConstraintSet, user: map<string, Value>, col: string, key: string)
    requires Get(user, "column_constraints").Obj?
    ensures var ov := Get(user, "column_constraints").fields;
      var r := Merge(base, user).columns;
      && (col in ov && ov[col].Obj? && key in ov[col].fields ==> r[col][key] == ov[col].fields[key])
      && (col in ov && ov[col].Obj? && key !in ov[col].fields ==>
            (key in r[col] <==> col in base.columns && key in base.columns[col])
            && (key in r[col] ==> r[col][key] == base.columns[col][key]))
      && (col in base.columns && !(col in ov && ov[col].Obj?) ==> r[col] == base.columns[col])
      && (col !in base.columns && !(col in ov && ov[col].Obj?) ==> col !in r)
  {
  }

  /** Overlay lists are appended after the generated entries, in document order. */
  lemma MergeAppends(base: ConstraintSet, user: map<string, Value>)
    ensures var r := Merge(base, user);
      && r.cross == base.cross + (if Get(user, "cross_column_constraints").Arr?
                                  then Get(user, "cross_column_constraints").items else [])
      && r.rowGroups == base.rowGroups + (if Get(user, "row_group_constraints").Arr?
                                          then Get(user, "row_group_constraints").items else [])
  {
  }

  /** An overlay without usable sections leaves the generated set as it is. */
  lemma MergeEmptyOverlay(base: ConstraintSet, user: map<string, Value>)
    requires !Get(user, "column_constraints").Obj?
    requires !Get(user, "cross_column_constraints").Arr? && !Get(user, "row_group_constraints").Arr?
    ensures Merge(base, user) == base
  {
  }

  /** Applying the same overlay again changes no column block; only the lists grow again. */
  lemma MergeColumnsIdempotent(base: ConstraintSet, user: map<string, Value>)
    ensures Merge(Merge(base, user), user).columns == Merge(base, user).columns
  {
    var cc := Get(user, "column_constraints");
    if cc.Obj? {
      var once := MergeColumns(base.columns, cc.fields);
      var twice := MergeColumns(once, cc.fields);
      forall col | col in once
        ensures twice[col] == once[col]
      {
        if col in cc.fields && cc.fields[col].Obj? {
          var b := if col in base.columns then base.columns[col] else map[];
          assert (b + cc.fields[col].fields) + cc.fields[col].fields == b + cc.fields[col].fields;
        }
      }
    }
  }

  /** The merge scenario of the source's tests: `min` is kept, `max` is added, one cross constraint appended. */
  lemma MergeExample()
    ensures var base := ConstraintSet(map["colA" := map["min" := Int(0)]], [], []);
      var foo := Obj(map["type" := Str("foo")]);
      var user := map[
        "column_constraints" := Obj(map["colA" := Obj(map["max" := Int(10)])]),
        "cross_column_constraints" := Arr([foo]),
        "row_group_constraints" := Arr([])];
      var r := Merge(base, user);
      r.columns["colA"] == map["min" := Int(0), "max" := Int(10)] && r.cross == [foo] && r.rowGroups == []
  {
  }

  /** An overlay for a column with no generated block yields exactly the overlay's fields. */
  lemma MergeNewColumn(base: ConstraintSet, col: string, rules: Rules)
    requires col !in base.columns
    ensures var user := map["column_constraints" := Obj(map[col := Obj(rules)])];
      Merge(base, user).columns[col] == rules
  {
  }
}
