# Resource grouping and inverted time-grid header of a calendar

This project models two pieces of a multi-resource calendar (a fork of
react-big-calendar) and proves properties of the model in Dafny.

- The **resource helper** (`src/utils/Resources.js`). `Resources(resources, accessors)`
  gives a `map` that walks the resource list with each resource's id and
  position. It also gives a `groupEvents` that partitions events into buckets
  keyed by resource id. Events of part-time resources go to the bucket
  `'other'`. Events without a truthy resource id go to the `NONE` sentinel.
- The **decision logic of the inverted time-grid header**
  (`src/InvertedTimeGridHeader.js`). Its output is modelled as descriptor
  values, not markup:
  - the header cells, one per full-time resource plus a trailing `'other'` cell;
  - the event subset a resource row shows;
  - one column descriptor per date of the range: date class, single-day cell
    class, today flag, drilldown link or plain label, and cells;
  - the overflow margin of the header;
  - the drilldown click handler.

Files:
- `js.dfy` (module `Js`): JavaScript values a resource id can take
  (`undefined`, `null`, string, integer) and truthiness.
- `seqs.dfy` (module `Seqs`): order-preserving `Filter` and `Compact`, with lemmas.
- `resources.dfy` (module `ResourceGrouping`): `Map`, `GroupEvents`, and the
  `Partition` that specifies it, with its lemmas.
- `header.dfy` (module `TimeGridHeader`): header cells, row filter, style,
  columns, `Render` and the click handler.

`groupEvents` mutates a `Map` in a loop. It is a method with a `while` loop
over the events that updates a `map<Key, seq<E>>`. It is proved equal to
`Partition`, which gives one bucket per key that some event has, holding
exactly that key's events in input order. The style of `render` is built by
assigning into an empty object, so it is a method. The click handler changes
the DOM event and calls back into the host. It is a method over two small
classes: `ClickEvent` (its `defaultPrevented` flag) and `DrillDownListener`
(the calls `onDrillDown` received). Everything else is a function.

Modelling choices:
- Bucket keys are `NoneKey | Id(value)`. The part-time bucket is `Id(Str("other"))`,
  because the code uses the plain string `'other'`. A real resource whose id is
  `'other'` therefore shares the part-time bucket (`OtherIdSharesPartTimeBucket`).
- `resources.length` in `render` is an explicit input `resourceCount: Option<int>`.
  `None` stands for an undefined length, for which the comparison `<= 1` is false.
- `scrollbarSize()` is a natural-number parameter of `Render` and `OverflowStyle`.
- `getNow()` is the `now` property. The day equality `dates.eq(_, _, 'day')` is
  equality of the results of a `dayKey` function. `localizer.format(_, 'dayFormat')`
  is an opaque `format` function.
- `getDrilldownView` returns an `Option` of a view. A falsy view is `None`.

Behaviours of the code worth knowing, each reflected in the model:
- In single-day mode the code only switches the date class
  (src/InvertedTimeGridHeader.js:158-160). The drilldown link still depends on
  `getDrilldownView` alone (:165). See `ColumnRules`.
- `renderHeaderCells` ignores the arguments it is called with (:178) and reads
  `this.props.date` (:18-20, :38). So every column has the same cells, with
  minutes looked up under the component's `date`, not the column's date.
- Without resources, `map` yields one entry whose resource is `null`
  (src/utils/Resources.js:6). The header reads `resource.isPartTime` on it
  (src/InvertedTimeGridHeader.js:28), which throws. So `HeaderCells` requires a
  resource list, and so does `Render` when the range is not empty.

## Model

| member | source | states |
|---|---|---|
| ResourceGrouping.Map | src/utils/Resources.js:5-10 | without resources, exactly one element `fn([NONE, null], 0)`; with resources, same length as the list, and element `i` is `fn([resourceId(r_i), r_i], i)` |
| ResourceGrouping.MapPreservesResources | src/utils/Resources.js:7-9 | with resources, reading back the resource of every entry gives the list unchanged (no reordering), and each entry's index is its position |
| ResourceGrouping.MapWithoutResources | src/utils/Resources.js:6 | without resources, the only entry is the `NONE` sentinel with a `null` resource at index 0 |
| ResourceGrouping.GroupEvents | src/utils/Resources.js:12-32 | without resources, the result is the single key `NONE` bound to the input events unchanged; with resources, the result equals `Partition` of the events under the bucket key (loop invariant: the map built so far is the partition of the events seen) |
| ResourceGrouping.PartitionSnoc | src/utils/Resources.js:27-29 | one more event is appended to its own bucket, which is created if missing; every other bucket is unchanged |
| ResourceGrouping.KeysOfNonEmpty | src/utils/Resources.js:27-29 | a key is present exactly when some event has it: buckets exist only through insertion |
| ResourceGrouping.PartitionBucketsNonEmpty | src/utils/Resources.js:13-29 | every bucket holds at least one event; no events give an empty map |
| ResourceGrouping.EventInExactlyOneBucket | src/utils/Resources.js:21-30 | every input event is in the bucket of its key, and in no other bucket |
| ResourceGrouping.PartitionTotalSize | src/utils/Resources.js:21-30 | the bucket sizes add up to the number of input events |
| ResourceGrouping.PartitionKeepsOrder | src/utils/Resources.js:21-29 | the event at input position `i` sits in its bucket at the position equal to the number of earlier events with the same key; of two events in one bucket, the earlier input comes first |
| ResourceGrouping.GroupingRules | src/utils/Resources.js:22-26 | an event is in bucket `k` iff: `k` is `'other'` when its id is part-time (never its own id otherwise); else `k` is its id when the id is truthy; else `k` is `NONE` |
| Seqs.FilterMembership | src/InvertedTimeGridHeader.js:71 | filtering keeps an element iff it is in the input and its key matches |
| Seqs.FilterPosition | src/InvertedTimeGridHeader.js:71 | a kept element's position in the result is the number of earlier kept elements |
| TimeGridHeader.HeaderCells | src/InvertedTimeGridHeader.js:17-55 | with a resource list, the cells end with the `'other'` cell, and every earlier cell carries a resource, so the `'other'` cell occurs exactly once |
| TimeGridHeader.FullTimeCells | src/InvertedTimeGridHeader.js:27-44 | one cell per resource that is not part-time, in list order (the cells' resources are exactly the filtered list). Each cell has its resource's position in the whole list as index, its title, and its `mins`. Indices strictly increase |
| TimeGridHeader.HeaderCellsShape | src/InvertedTimeGridHeader.js:27-52 | the header cells are the full-time cells followed by the cell (index 1000, title `'other'`, mins `''`, resource `{}`), in every case; the count is the number of full-time resources plus one |
| TimeGridHeader.FullTimeResourceHasCell | src/InvertedTimeGridHeader.js:27-35 | every resource that is not part-time has a cell whose index is its position |
| TimeGridHeader.ExampleGrouping | src/utils/Resources.js:21-30 | resource `a` and part-time `b` with one event each: buckets are exactly `a: [1]` and `'other': [2]` |
| TimeGridHeader.ExampleHeaderCells | src/InvertedTimeGridHeader.js:27-52 | for the same resources, the cells are the cell of `a` then the `'other'` cell |
| TimeGridHeader.RowEvents | src/InvertedTimeGridHeader.js:69-72 | a falsy resource keeps all events unchanged; otherwise the row keeps at most the input events |
| TimeGridHeader.RowEventsSelection | src/InvertedTimeGridHeader.js:69-72 | a resource row keeps an event iff the event's resource id strictly equals the resource's id |
| TimeGridHeader.RowEventsMatchBucket | src/InvertedTimeGridHeader.js:69-72 | for a resource whose id is truthy, not part-time and not `'other'`, the row's events equal its `groupEvents` bucket (empty when there is none) |
| TimeGridHeader.OtherIdSharesPartTimeBucket | src/utils/Resources.js:24-26 | a resource with id `'other'` gets part-time events in its bucket that its row does not show |
| TimeGridHeader.OverflowStyle | src/InvertedTimeGridHeader.js:116-119 | a margin equal to the scrollbar size is set iff overflowing, on exactly one side: left under rtl, right otherwise; empty style without overflow |
| TimeGridHeader.Render | src/InvertedTimeGridHeader.js:98-185 | the header's style obeys the overflow rule, `rbc-overflowing` is set iff overflowing, and the columns are those of `Columns` |
| TimeGridHeader.ColumnRules | src/InvertedTimeGridHeader.js:136-182 | one column per date in range order. Single-day date class iff range length <= 1. Single-day cell class iff also `resources.length <= 1`. Today iff same day as `now`. Drilldown link with that date and view iff `getDrilldownView` gives one (independent of range length). Every column has the header cells of the component's `date` |
| TimeGridHeader.HandleHeaderClick | src/InvertedTimeGridHeader.js:12-15 | the event's default action is always prevented; a registered `onDrillDown` receives exactly one more call, with `(date, view)`; without one nothing else happens |

## Left out

- JSX rendering, `PropTypes`, `clsx` string joining and the `key` strings. Class names are fields of the descriptors.
- The `DateContentRow`, `Header`, `ResourceHeader` and time-gutter components. They are external renderers; only the values handed to them are modelled, and `renderRow` is modelled as its event filter only.
- `scrollbarSize()`, `getNow()`, `localizer.format` and `dates.eq`: a parameter, a property, and opaque functions (`format`, `dayKey`).
- `notify` from `./utils/helpers`: modelled as calling the callback when one is registered.
- `dayProp`'s style and the gutter `width`: passed through to markup only.
- The header without resources: the code throws there (see above), so it is a precondition.
- The string conversion JavaScript applies when `minutesByDate[date]` indexes an object: the lookup is keyed by the date value itself.
- Object-valued and `NaN` resource ids, and the entry order of the JavaScript `Map`: ids are `undefined`, `null`, strings or integers, and buckets are an unordered `map`.
- HandleHeaderClick: its contract states both effects but not their relative order (`preventDefault` runs before `notify`).
- RowEvents: its own contract states only the falsy case and a length bound; which events are kept, and in what order, is stated by `RowEventsSelection`, `RowEventsMatchBucket` and the `Seqs.Filter` lemmas.
- HeaderCells: its own contract states the trailing `'other'` cell and that no earlier cell is it; which cells come earlier is stated by `HeaderCellsShape` with `FullTimeCells`.
- GroupEvents: buckets are values, so it does not model array identity or aliasing. Without resources the source returns the caller's own `events` array under `NONE` (src/utils/Resources.js:17), and it pushes onto bucket arrays in place (:28). The source also calls `accessors.resource(event)` twice (:22, :26); the model reads it once, which assumes the accessor is pure.
