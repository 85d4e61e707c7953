/**
 * The run-metrics table of the logging module (`FETCH_METRICS`): a
 * dictionary from metric names to Python values, grown by `update_metrics`,
 * read by `get_metrics` and restored by `reset_metrics`.
 */
module Metrics {
  import opened Wrappers

  /**
   * The Python values a metric can hold or be updated with. `Num` stands for
   * `int` and `float` alike and `Flag` for `bool`, which Python counts as an
   * `int`; a `set` is held as its elements in iteration order.
   */
  datatype Value =
    | Num(x: real)
    | Flag(b: bool)
    | List(items: seq<Value>)
    | SetOf(elems: seq<Value>)
    | Dict(entries: map<string, Value>)
    | Text(s: string)
    | Nothing

  /** `isinstance(value, (int, float))`. */
  predicate IsNumber(v: Value) {
    v.Num? || v.Flag?
  }

  /** The number a numeric value adds: booleans count as 0 and 1. */
  function NumberOf(v: Value): real
    requires IsNumber(v)
  {
    match v
    case Num(x) => x
    case Flag(b) => if b then 1.0 else 0.0
  }

  /** `isinstance(value, (list, set))`. */
  predicate IsCollection(v: Value) {
    v.List? || v.SetOf?
  }

  function ElementsOf(v: Value): seq<Value>
    requires IsCollection(v)
  {
    if v.List? then v.items else v.elems
  }

  type Table = map<string, Value>

  /** No metric holds a `set`: `update_metrics` turns every collection it is given into a list. */
  predicate NoSetMetrics(t: Table) {
    forall k :: k in t ==> !t[k].SetOf?
  }

  /**
   * The new value of the metric, or the exception: `+=` on something that is
   * not a number raises `TypeError`; `extend` on something that is not a
   * list, or `update` on something that is not a dict, raises `AttributeError`.
   */
  function UpdatedValue(t: Table, name: string, value: Value): Outcome<Value> {
    if IsNumber(value) then
      var current := if name in t then t[name] else Num(0.0);
      if IsNumber(current) then Ok(Num(NumberOf(current) + NumberOf(value))) else Raised(TypeError)
    else if IsCollection(value) then
      var current := if name in t then t[name] else List([]);
      if current.List? then Ok(List(current.items + ElementsOf(value))) else Raised(AttributeError)
    else if value.Dict? then
      var current := if name in t then t[name] else Dict(map[]);
      if current.Dict? then Ok(Dict(current.entries + value.entries)) else Raised(AttributeError)
    else Ok(value)
  }

  /**
   * `update_metrics(name, value)` on a table: only the named metric changes,
   * to its updated value; on an exception nothing changes.
   */
  function Update(t: Table, name: string, value: Value): (r: Outcome<Table>)
    ensures r.Ok? <==> UpdatedValue(t, name, value).Ok?
    ensures r.Ok? ==> name in r.value && r.value[name] == UpdatedValue(t, name, value).value
    ensures r.Ok? ==> r.value.Keys == t.Keys + {name}
    ensures r.Ok? ==> forall k :: k in t && k != name ==> r.value[k] == t[k]
    ensures r.Raised? ==> r.error == UpdatedValue(t, name, value).error
  {
    match UpdatedValue(t, name, value)
    case Ok(v) => Ok(t[name := v])
    case Raised(e) => Raised(e)
  }

  /** The four kinds of value, each on an absent metric: start from zero, an empty list, an empty dict, or store the value. */
  lemma UpdateAbsent(t: Table, name: string, value: Value)
    requires name !in t
    ensures Update(t, name, value).Ok?
    ensures IsNumber(value) ==> Update(t, name, value).value[name] == Num(NumberOf(value))
    ensures IsCollection(value) ==> Update(t, name, value).value[name] == List(ElementsOf(value))
    ensures value.Dict? ==> Update(t, name, value).value[name] == value
    ensures !IsNumber(value) && !IsCollection(value) && !value.Dict? ==> Update(t, name, value).value[name] == value
  {
    if IsCollection(value) {
      assert [] + ElementsOf(value) == ElementsOf(value);
    }
    if value.Dict? {
      assert map[] + value.entries == value.entries;
    }
  }

  /** Adding two numbers to a counter adds their sum. */
  lemma NumbersAccumulate(t: Table, name: string, a: Value, b: Value)
    requires IsNumber(a) && IsNumber(b)
    requires name in t ==> IsNumber(t[name])
    ensures Update(t, name, a).Ok?
    ensures var once := Update(t, name, a).value;
      Update(once, name, b).Ok?
      && Update(once, name, b).value[name]
         == Num((if name in t then NumberOf(t[name]) else 0.0) + NumberOf(a) + NumberOf(b))
  {
  }

  /** Extending a list twice appends both collections, in order. */
  lemma ListsAccumulate(t: Table, name: string, a: Value, b: Value)
    requires IsCollection(a) && IsCollection(b)
    requires name in t ==> t[name].List?
    ensures Update(t, name, a).Ok?
    ensures var once := Update(t, name, a).value;
      Update(once, name, b).Ok?
      && Update(once, name, b).value[name]
         == List((if name in t then t[name].items else []) + ElementsOf(a) + ElementsOf(b))
  {
    var start := if name in t then t[name].items else [];
    assert start + ElementsOf(a) + ElementsOf(b) == (start + ElementsOf(a)) + ElementsOf(b);
  }

  /** A dict update keeps the old keys, adds the new ones, and the new values win. */
  lemma DictMerge(t: Table, name: string, value: Value)
    requires value.Dict? && name in t && t[name].Dict?
    ensures Update(t, name, value).Ok?
    ensures var m := Update(t, name, value).value[name].entries;
      m.Keys == t[name].entries.Keys + value.entries.Keys
      && (forall k :: k in value.entries ==> m[k] == value.entries[k])
      && (forall k :: k in t[name].entries && k !in value.entries ==> m[k] == t[name].entries[k])
  {
  }

  /** A failed update leaves the table as it was; the failures are exactly the mismatched kinds. */
  lemma UpdateFails(t: Table, name: string, value: Value)
    requires name in t
    ensures Update(t, name, value).Raised? <==>
      (IsNumber(value) && !IsNumber(t[name]))
      || (IsCollection(value) && !t[name].List?)
      || (value.Dict? && !t[name].Dict?)
  {
  }

  /** An update never leaves a `set` in the table. */
  lemma UpdateKeepsNoSets(t: Table, name: string, value: Value)
    requires NoSetMetrics(t)
    ensures Update(t, name, value).Ok? ==> NoSetMetrics(Update(t, name, value).value)
  {
  }

  function AgeDefaults(): Table {
    map["last_hour" := Num(0.0), "today" := Num(0.0), "yesterday" := Num(0.0),
        "this_week" := Num(0.0), "older" := Num(0.0)]
  }

  /** The table as the module defines it and as `reset_metrics` rebuilds it. */
  function Defaults(): (t: Table)
    ensures NoSetMetrics(t)
  {
    map[
      "sources_checked" := Num(0.0),
      "successful_sources" := Num(0.0),
      "failed_sources" := List([]),
      "empty_sources" := List([]),
      "total_articles" := Num(0.0),
      "duplicate_articles" := Num(0.0),
      "processing_time" := Num(0.0),
      "source_statistics" := Dict(map[]),
      "driver_reuse_count" := Num(0.0),
      "browser_instances" := Num(0.0),
      "average_article_fetch_time" := Num(0.0),
      "failed_fetches" := List([]),
      "slow_sources" := List([]),
      "article_ages" := Dict(AgeDefaults()),
      "content_statistics" := Dict(map["total_length" := Num(0.0), "average_length" := Num(0.0)]),
      "error_counts" := Dict(map["parse_errors" := Num(0.0), "fetch_errors" := Num(0.0), "timeout_errors" := Num(0.0)])
    ]
  }

  /** The counters of the default table start at zero and its lists empty. */
  lemma DefaultsZero()
    ensures forall k :: k in Defaults() && Defaults()[k].Num? ==> Defaults()[k].x == 0.0
    ensures forall k :: k in Defaults() && Defaults()[k].List? ==> Defaults()[k].items == []
    ensures "article_ages" in Defaults() && Defaults()["article_ages"].Dict?
    ensures Defaults()["article_ages"].entries.Keys == {"last_hour", "today", "yesterday", "this_week", "older"}
  {
  }

  /** The `FETCH_METRICS` global. */
  class MetricsTable {
    var table: Table

    predicate Valid()
      reads this
    {
      NoSetMetrics(table)
    }

    constructor()
      ensures table == Defaults() && Valid()
    {
      table := Defaults();
    }

    /** `update_metrics`: the table changes to `Update(old table)`, or not at all when that raises. */
    method UpdateMetrics(name: string, value: Value) returns (r: Outcome<()>)
      requires Valid()
      modifies this
      ensures Valid()
      ensures r.Ok? <==> Update(old(table), name, value).Ok?
      ensures r.Ok? ==> table == Update(old(table), name, value).value
      ensures r.Raised? ==> table == old(table) && r.error == Update(old(table), name, value).error
    {
      UpdateKeepsNoSets(table, name, value);
      if IsNumber(value) {
        if name !in table {
          table := table[name := Num(0.0)];
        }
        var current := table[name];
        if !IsNumber(current) {
          return Raised(TypeError);
        }
        table := table[name := Num(NumberOf(current) + NumberOf(value))];
      } else if IsCollection(value) {
        if name !in table {
          table := table[name := List([])];
        }
        var current := table[name];
        if !current.List? {
          return Raised(AttributeError);
        }
        table := table[name := List(current.items + ElementsOf(value))];
      } else if value.Dict? {
        if name !in table {
          table := table[name := Dict(map[])];
        }
        var current := table[name];
        if !current.Dict? {
          return Raised(AttributeError);
        }
        table := table[name := Dict(current.entries + value.entries)];
      } else {
        table := table[name := value];
      }
      r := Ok(());
    }

    /** `get_metrics`: the current table. */
    method GetMetrics() returns (t: Table)
      ensures t == table
    {
      t := table;
    }

    /** `reset_metrics`: back to the defaults, whatever was recorded. */
    method ResetMetrics()
      modifies this
      ensures table == Defaults() && Valid()
    {
      table := Defaults();
    }
  }
}
