/** The decision logic of the inverted time-grid header
    (src/InvertedTimeGridHeader.js), with its output as descriptor values
    instead of markup: per-resource header cells, the event subset of a
    resource row, one column descriptor per date of the range, the overflow
    margin of the header and the drilldown click. */
module TimeGridHeader {
  import opened Js
  import opened Seqs
  import opened ResourceGrouping

  /** A resource object as the header reads it: its other properties (read
      through the accessors), whether it is part-time (an absent flag is
      `false`), and its optional minutes-per-date table. */
  datatype Resource<!D> = Resource(attrs: map<string, Value>, isPartTime: bool, minutesByDate: Option<map<D, int>>)

  /** The `mins` of a header cell: `''`, `undefined` (the table has no entry
      for the date) or a number of minutes. */
  datatype Mins = Blank | Missing | Minutes(n: int)

  /** The `resource` of a header cell: a resource, or the empty object `{}`. */
  datatype CellResource<!D> = Given(r: Resource<D>) | EmptyObject

  /** The properties handed to the resource-header renderer for one cell. */
  datatype Cell<!D> = Cell(index: nat, title: string, mins: Mins, resource: CellResource<D>)

  /** The index of the synthetic 'other' cell. */
  const OtherIndex: nat := 1000

  /** The trailing cell that stands for the part-time bucket. */
  function OtherCell<D>(): Cell<D>
  {
    Cell(OtherIndex, "other", Blank, EmptyObject)
  }

  /** `resource.minutesByDate ? resource.minutesByDate[date] : ''`. */
  function MinsOn<D>(r: Resource<D>, date: D): Mins
  {
    match r.minutesByDate
    case None => Blank
    case Some(byDate) => if date in byDate then Minutes(byDate[date]) else Missing
  }

  /** The cell of a full-time resource at position `idx` of the resource list. */
  function CellFor<E, D>(acc: Accessors<Resource<D>, E>, r: Resource<D>, idx: nat, date: D): Cell<D>
  {
    Cell(idx, acc.resourceTitle(r), MinsOn(r, date), Given(r))
  }

  /** What the callback of `resources.map` returns for one entry: `false`
      (here `None`) for a part-time resource, a cell otherwise. */
  function ResourceCell<E, D>(acc: Accessors<Resource<D>, E>, r: Resource<D>, idx: nat, date: D): Option<Cell<D>>
  {
    if r.isPartTime then None else Some(CellFor(acc, r, idx, date))
  }

  /** `renderHeaderCells`: the cells of the resources that are not part-time,
      then the 'other' cell. `date` is the component's own `date` property. */
  function HeaderCells<E, D>(resources: Resources<Resource<D>, E>, acc: Accessors<Resource<D>, E>, date: D): (cells: seq<Cell<D>>)
    requires resources.list.Some?
    ensures |cells| >= 1 && cells[|cells| - 1] == OtherCell()
    ensures forall j :: 0 <= j < |cells| - 1 ==> cells[j].resource.Given? && cells[j] != OtherCell()
  {
    // With a resource list every entry carries a resource, so the `None`
    // branch of the callback is never taken.
    var fn := (id, r: Option<Resource<D>>, idx) => if r.Some? then ResourceCell(acc, r.value, idx, date) else None;
    assert Map(resources, fn) == Callbacks(acc, resources.list.value, date);
    CompactCallbacks(acc, resources.list.value, date);
    Compact(Map(resources, fn)) + [OtherCell()]
  }

  function PartTimeFlag<D>(r: Resource<D>): bool
  {
    r.isPartTime
  }

  /** Reference definition of the per-resource cells: walk the list and keep
      a cell, numbered by its position, for each resource that is not
      part-time. The cells name valid positions of full-time resources, carry
      those resources in list order, and have strictly increasing indices. */
  function FullTimeCells<E, D>(acc: Accessors<Resource<D>, E>, rs: seq<Resource<D>>, date: D): (cells: seq<Cell<D>>)
    ensures |cells| == |Filter(rs, PartTimeFlag, false)|
    ensures forall j :: 0 <= j < |cells| ==>
      && cells[j].index < |rs|
      && !rs[cells[j].index].isPartTime
      && cells[j] == CellFor(acc, rs[cells[j].index], cells[j].index, date)
      && cells[j].resource.r == Filter(rs, PartTimeFlag, false)[j]
    ensures forall j1, j2 :: 0 <= j1 < j2 < |cells| ==> cells[j1].index < cells[j2].index
    decreases |rs|
  {
    if rs == [] then []
    else
      var last := rs[|rs| - 1];
      FullTimeCells(acc, rs[..|rs| - 1], date) + (if last.isPartTime then [] else [CellFor(acc, last, |rs| - 1, date)])
  }

  /** The map callback's results, as a sequence over the resource list. */
  function Callbacks<E, D>(acc: Accessors<Resource<D>, E>, rs: seq<Resource<D>>, date: D): seq<Option<Cell<D>>>
  {
    seq(|rs|, i requires 0 <= i < |rs| => ResourceCell(acc, rs[i], i, date))
  }

  lemma {:induction false} CompactCallbacks<E, D>(acc: Accessors<Resource<D>, E>, rs: seq<Resource<D>>, date: D)
    ensures Compact(Callbacks(acc, rs, date)) == FullTimeCells(acc, rs, date)
    decreases |rs|
  {
    if rs != [] {
      var s := Callbacks(acc, rs, date);
      assert s[..|s| - 1] == Callbacks(acc, rs[..|rs| - 1], date);
      CompactCallbacks(acc, rs[..|rs| - 1], date);
    }
  }

  /** The header cells are exactly the reference cells of the full-time
      resources, in list order and numbered by their position in the whole
      list (part-time ones included, so the indices may have gaps), followed
      by exactly one 'other' cell with index 1000, whether or not any
      resource is part-time. */
  lemma HeaderCellsShape<E, D>(resources: Resources<Resource<D>, E>, acc: Accessors<Resource<D>, E>, date: D)
    requires resources.list.Some?
    ensures HeaderCells(resources, acc, date) == FullTimeCells(acc, resources.list.value, date) + [OtherCell()]
    ensures |HeaderCells(resources, acc, date)| == |Filter(resources.list.value, PartTimeFlag, false)| + 1
  {
    var rs := resources.list.value;
    var fn := (id, r: Option<Resource<D>>, idx) => if r.Some? then ResourceCell(acc, r.value, idx, date) else None;
    assert Map(resources, fn) == Callbacks(acc, rs, date);
    CompactCallbacks(acc, rs, date);
  }

  /** Every resource that is not part-time has its cell, at its own position. */
  lemma {:induction false} FullTimeResourceHasCell<E, D>(acc: Accessors<Resource<D>, E>, rs: seq<Resource<D>>, date: D, i: nat)
    requires i < |rs| && !rs[i].isPartTime
    ensures exists j :: 0 <= j < |FullTimeCells(acc, rs, date)| && FullTimeCells(acc, rs, date)[j].index == i
    decreases |rs|
  {
    var cells := FullTimeCells(acc, rs, date);
    if i == |rs| - 1 {
      assert cells[|cells| - 1].index == i;
    } else {
      var init := rs[..|rs| - 1];
      FullTimeResourceHasCell(acc, init, date, i);
      var j :| 0 <= j < |FullTimeCells(acc, init, date)| && FullTimeCells(acc, init, date)[j].index == i;
      assert cells[j].index == i;
    }
  }

  /** `renderRow`, the event filter only: a resource row shows the events whose
      resource id is the resource's id (strict equality), in input order; with
      a falsy resource it shows every event. */
  function RowEvents<E, D>(acc: Accessors<Resource<D>, E>, events: seq<E>, resource: Option<Resource<D>>): (r: seq<E>)
    ensures resource.None? ==> r == events
    ensures resource.Some? ==> |r| <= |events|
  {
    match resource
    case None => events
    case Some(res) => Filter(events, acc.resource, acc.resourceId(res))
  }

  /** A row keeps an event exactly when it refers to the row's resource id. */
  lemma RowEventsSelection<E, D>(acc: Accessors<Resource<D>, E>, events: seq<E>, r: Resource<D>, e: E)
    ensures e in RowEvents(acc, events, Some(r)) <==> e in events && acc.resource(e) == acc.resourceId(r)
  {
    FilterMembership(events, acc.resource, acc.resourceId(r), e);
  }

  /** For a resource that is not part-time, whose id is truthy and is not the
      string 'other', the row shows exactly the bucket `groupEvents` builds for
      that id (no events when there is no such bucket). */
  lemma RowEventsMatchBucket<E, D>(acc: Accessors<Resource<D>, E>, partTimeIds: seq<Value>, events: seq<E>, r: Resource<D>)
    requires Truthy(acc.resourceId(r)) && acc.resourceId(r) !in partTimeIds && acc.resourceId(r) != Str("other")
    ensures var p, k := Partition(events, KeyFn(acc, partTimeIds)), Id(acc.resourceId(r));
      RowEvents(acc, events, Some(r)) == if k in p then p[k] else []
  {
    var key, id := KeyFn(acc, partTimeIds), acc.resourceId(r);
    FilterSameSelection(events, acc.resource, id, key, Id(id));
    KeysOfNonEmpty(events, key, Id(id));
  }

  /** A resource whose id is 'other' shares the part-time bucket: its
      bucket also holds the events of part-time resources, which its row
      does not show. */
  lemma OtherIdSharesPartTimeBucket<E, D>(acc: Accessors<Resource<D>, E>, partTimeIds: seq<Value>, events: seq<E>, r: Resource<D>, i: nat)
    requires acc.resourceId(r) == Str("other") && i < |events|
    requires acc.resource(events[i]) in partTimeIds && acc.resource(events[i]) != Str("other")
    ensures var p := Partition(events, KeyFn(acc, partTimeIds));
      Other in p && events[i] in p[Other]
    ensures events[i] !in RowEvents(acc, events, Some(r))
  {
    GroupingRules(acc, partTimeIds, events, i, Other);
    RowEventsSelection(acc, events, r, events[i]);
  }

  /** The resources and accessors of a worked case: resource 'a', part-time
      resource 'b', and events 1 (on 'a') and 2 (on 'b'). */
  function ExampleAccessors(): Accessors<Resource<int>, int>
  {
    Accessors((r: Resource<int>) => if "id" in r.attrs then r.attrs["id"] else Undefined,
              (e: int) => if e == 1 then Str("a") else Str("b"),
              (r: Resource<int>) => "")
  }

  lemma ExampleKeys()
    ensures KeyFn(ExampleAccessors(), [Str("b")])(1) == Id(Str("a"))
    ensures KeyFn(ExampleAccessors(), [Str("b")])(2) == Other
    ensures Other != Id(Str("a"))
  {
    var acc := ExampleAccessors();
    assert acc.resource(1) == Str("a") && acc.resource(2) == Str("b");
    assert Str("a") !in [Str("b")] && Str("b") in [Str("b")];
    assert "other" != "a" by { assert "other"[0] != "a"[0]; }
  }

  lemma ExampleFirstEvent()
    ensures Partition([1], KeyFn(ExampleAccessors(), [Str("b")])) == map[Id(Str("a")) := [1]]
  {
    var key := KeyFn(ExampleAccessors(), [Str("b")]);
    ExampleKeys();
    PartitionBucketsNonEmpty([], key);
    assert [] + [1] == [1];
    PartitionSnoc([], 1, key);
  }

  /** With 'b' among the part-time ids, event 1 goes to the bucket of 'a' and
      event 2 to the 'other' bucket. */
  lemma ExampleGrouping()
    ensures Partition([1, 2], KeyFn(ExampleAccessors(), [Str("b")])) == map[Id(Str("a")) := [1], Other := [2]]
  {
    var key := KeyFn(ExampleAccessors(), [Str("b")]);
    ExampleKeys();
    ExampleFirstEvent();
    var p1 := Partition([1], key);
    assert Other !in p1;
    assert [1] + [2] == [1, 2];
    PartitionSnoc([1], 2, key);
    assert [] + [2] == [2];
    assert Partition([1, 2], key) == p1[Other := [2]];
  }

  /** The header cells of any date are the cell of 'a' and the 'other' cell;
      'b' has no cell of its own. */
  lemma ExampleHeaderCells(date: int)
    ensures var a := Resource(map["id" := Str("a")], false, None);
      var b := Resource(map["id" := Str("b")], true, None);
      HeaderCells(Resources(Some([a, b]), ExampleAccessors()), ExampleAccessors(), date)
        == [Cell(0, "", Blank, Given(a)), OtherCell()]
  {
    var a := Resource(map["id" := Str("a")], false, None);
    var b := Resource(map["id" := Str("b")], true, None);
    HeaderCellsShape(Resources(Some([a, b]), ExampleAccessors()), ExampleAccessors(), date);
  }

  /** The inline style of the header: at most one margin. */
  datatype Style = Style(marginLeft: Option<nat>, marginRight: Option<nat>)

  /** The style of `render`: starts empty; when the content overflows, the
      scrollbar width goes on the left under right-to-left layout and on the
      right otherwise. */
  method OverflowStyle(isOverflowing: bool, rtl: bool, scrollbarPx: nat) returns (style: Style)
    ensures (style.marginLeft.Some? || style.marginRight.Some?) <==> isOverflowing
    ensures !(style.marginLeft.Some? && style.marginRight.Some?)
    ensures style.marginLeft.Some? <==> isOverflowing && rtl
    ensures style.marginLeft.Some? ==> style.marginLeft.value == scrollbarPx
    ensures style.marginRight.Some? ==> style.marginRight.value == scrollbarPx
  {
    style := Style(None, None);
    if isOverflowing {
      if rtl {
        style := style.(marginLeft := Some(scrollbarPx));
      } else {
        style := style.(marginRight := Some(scrollbarPx));
      }
    }
  }

  /** The properties `render` reads. `resourceCount` is `resources.length`
      (`None` when that property is undefined); `now` is `getNow()`; `dayKey`
      identifies a calendar day, so `dates.eq(a, b, 'day')` is equality of
      day keys; `format` is `localizer.format(_, 'dayFormat')`; `dayClass` is
      the class name of `dayProp`. */
  datatype Props<!E, !D, !V> = Props(
    resources: Resources<Resource<D>, E>,
    resourceCount: Option<int>,
    accessors: Accessors<Resource<D>, E>,
    date: D,
    events: seq<E>,
    range: seq<D>,
    rtl: bool,
    isOverflowing: bool,
    now: D,
    dayKey: D -> int,
    format: D -> string,
    dayClass: D -> string,
    getDrilldownView: D -> Option<V>)

  /** The date class: 'rbc-header-date-single-day inverted' or 'rbc-header-date'. */
  datatype DateVariant = SingleDay | MultiDay

  /** The date label: a drilldown link whose click calls the handler with the
      date and the view, or a plain span. */
  datatype Label<D, V> = DrilldownLink(date: D, view: V) | Plain

  /** One column of the header: the date, its formatted label, whether the
      row carries 'rbc-time-header-cell-single-day', the date class, the
      `dayProp` class, whether 'rbc-today' is set, the label wrapping and the
      resource cells. */
  datatype Column<!D, V> = Column(
    date: D,
    labelText: string,
    singleDayCell: bool,
    variant: DateVariant,
    dayClass: string,
    isToday: bool,
    link: Label<D, V>,
    cells: seq<Cell<D>>)

  /** The header as a whole: its style, whether 'rbc-overflowing' is set, and
      the columns. */
  datatype HeaderView<!D, V> = HeaderView(style: Style, overflowing: bool, columns: seq<Column<D, V>>)

  /** `resources.length <= 1`, where an undefined length compares false. */
  predicate AtMostOne(count: Option<int>)
  {
    count.Some? && count.value <= 1
  }

  /** The column of one date of the range. */
  function ColumnFor<E, D, V>(p: Props<E, D, V>, date: D): Column<D, V>
    requires p.resources.list.Some?
  {
    Column(
      date,
      p.format(date),
      |p.range| <= 1 && AtMostOne(p.resourceCount),
      if |p.range| <= 1 then SingleDay else MultiDay,
      p.dayClass(date),
      p.dayKey(date) == p.dayKey(p.now),
      match p.getDrilldownView(date)
      case Some(view) => DrilldownLink(date, view)
      case None => Plain,
      HeaderCells(p.resources, p.accessors, p.date))
  }

  /** The columns of `render`: one per date of the range. */
  function Columns<E, D, V>(p: Props<E, D, V>): seq<Column<D, V>>
    requires |p.range| > 0 ==> p.resources.list.Some?
  {
    seq(|p.range|, i requires 0 <= i < |p.range| => ColumnFor(p, p.range[i]))
  }

  /** `render`: the style, the overflow class and the columns. */
  method Render<E, D, V>(p: Props<E, D, V>, scrollbarPx: nat) returns (h: HeaderView<D, V>)
    requires |p.range| > 0 ==> p.resources.list.Some?
    ensures h.overflowing == p.isOverflowing
    ensures (h.style.marginLeft.Some? || h.style.marginRight.Some?) <==> p.isOverflowing
    ensures h.style.marginLeft.Some? <==> p.isOverflowing && p.rtl
    ensures h.style.marginRight.Some? <==> p.isOverflowing && !p.rtl
    ensures h.style.marginLeft.Some? ==> h.style.marginLeft.value == scrollbarPx
    ensures h.style.marginRight.Some? ==> h.style.marginRight.value == scrollbarPx
    ensures h.columns == Columns(p)
  {
    var style := OverflowStyle(p.isOverflowing, p.rtl, scrollbarPx);
    h := HeaderView(style, p.isOverflowing, Columns(p));
  }

  /** One column per date, in range order, and the decision rules of each:
      the single-day date class iff the range has at most one date; the
      single-day cell class iff, in addition, `resources.length <= 1`; the
      today flag iff the date is on the day of `now`; a drilldown link iff
      `getDrilldownView` gives a view, independently of the range length; and
      the same resource cells in every column, computed from the component's
      `date` rather than the column's date. */
  lemma ColumnRules<E, D, V>(p: Props<E, D, V>, i: nat)
    requires i < |p.range| && p.resources.list.Some?
    ensures var cols, d := Columns(p), p.range[i];
      && |cols| == |p.range|
      && cols[i].date == d
      && (cols[i].variant == SingleDay <==> |p.range| <= 1)
      && (cols[i].singleDayCell <==> |p.range| <= 1 && p.resourceCount.Some? && p.resourceCount.value <= 1)
      && (cols[i].isToday <==> p.dayKey(d) == p.dayKey(p.now))
      && (cols[i].link.DrilldownLink? <==> p.getDrilldownView(d).Some?)
      && (cols[i].link.DrilldownLink? ==> cols[i].link == DrilldownLink(d, p.getDrilldownView(d).value))
      && cols[i].cells == HeaderCells(p.resources, p.accessors, p.date)
  {
  }

  /** A header event: `preventDefault` sets its flag. */
  class ClickEvent {
    var defaultPrevented: bool

    constructor ()
      ensures !defaultPrevented
    {
      defaultPrevented := false;
    }

    method PreventDefault()
      modifies this
      ensures defaultPrevented
    {
      defaultPrevented := true;
    }
  }

  /** The host's `onDrillDown` callback, observed through the calls it got. */
  class DrillDownListener<D, V> {
    var received: seq<(D, V)>

    constructor ()
      ensures received == []
    {
      received := [];
    }

    method Notify(date: D, view: V)
      modifies this
      ensures received == old(received) + [(date, view)]
    {
      received := received + [(date, view)];
    }
  }

  /** `handleHeaderClick(date, view, e)`: always prevents the event's default
      action, then notifies `onDrillDown` with the date and the view when the
      host registered one (`null` for none). */
  method HandleHeaderClick<D, V>(onDrillDown: DrillDownListener?<D, V>, date: D, view: V, e: ClickEvent)
    modifies e, onDrillDown
    ensures e.defaultPrevented
    ensures onDrillDown != null ==> onDrillDown.received == old(onDrillDown.received) + [(date, view)]
  {
    e.PreventDefault();
    if onDrillDown != null {
      onDrillDown.Notify(date, view);
    }
  }
}
