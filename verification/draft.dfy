/** The declarative schema draft the mapper emits. */
module Draft {
  import opened SqlValues
  import opened Joins

  /** A source table of the draft: its qualified name and the alias it goes by. */
  datatype TableRef = TableRef(name: string, alias: string)

  datatype DraftJoin = DraftJoin(from: string, keysFrom: seq<string>, to: string, keysTo: seq<string>, kind: Kind)

  /** `where`, `where_groups`, and per alias `filter` and `filter_groups`. */
  datatype Filters = Filters(
    where: seq<Filter>,
    groups: seq<seq<Filter>>,
    tableFilters: map<string, seq<Filter>>,
    tableGroups: map<string, seq<seq<Filter>>>)

  function Aliases(tables: seq<TableRef>): (r: seq<string>)
    ensures |r| == |tables| && forall i | 0 <= i < |r| :: r[i] == tables[i].alias
  {
    seq(|tables|, i requires 0 <= i < |tables| => tables[i].alias)
  }

  function FiltersOn(f: Filters, alias: string): seq<Filter> {
    if alias in f.tableFilters then f.tableFilters[alias] else []
  }

  function GroupsOn(f: Filters, alias: string): seq<seq<Filter>> {
    if alias in f.tableGroups then f.tableGroups[alias] else []
  }

  function TableFilterOn(f: Filters, alias: string): TableFilter {
    TableFilter(FiltersOn(f, alias), GroupsOn(f, alias))
  }

  function TableFilters(f: Filters, tables: seq<TableRef>): (r: seq<TableFilter>)
    ensures |r| == |tables| && forall i | 0 <= i < |r| :: r[i] == TableFilterOn(f, tables[i].alias)
  {
    seq(|tables|, i requires 0 <= i < |tables| => TableFilterOn(f, tables[i].alias))
  }
}
