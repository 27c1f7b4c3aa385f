/** The line-interconnect tables as the driver rebuilds and shifts them when an
    adapter comes or goes (kernel/capifunc.c:211-229, 487-526, 976-1084). */
module LineInterconnect {
  import opened LiGrid
  import opened Words

  const MAX_ADAPTER := 64

  const CHANNELS_BRI := 8    // MIXER_TOTAL_CHANNELS_BRI
  const CHANNELS_PRI := 64   // MIXER_TOTAL_CHANNELS_PRI

  /** LI_CONFIG: what is known of a channel, and its row of either table. */
  datatype Config<T> = Config(info: T, flagTable: array<Byte>, coefTable: array<Byte>)

  method Memset(a: array<Byte>, at: nat, n: nat)
    requires at + n <= a.Length
    modifies a
    ensures forall j | at <= j < at + n :: a[j] == 0
    ensures forall j | 0 <= j < at || at + n <= j < a.Length :: a[j] == old(a[j])
  {
    for i := at to at + n
      invariant forall j | at <= j < i :: a[j] == 0
      invariant forall j | 0 <= j < at || i <= j < a.Length :: a[j] == old(a[j])
    {
      a[i] := 0;
    }
  }

  method Memcpy(dst: array<Byte>, to: nat, src: array<Byte>, from: nat, n: nat)
    requires dst != src && to + n <= dst.Length && from + n <= src.Length
    modifies dst
    ensures forall j | to <= j < to + n :: dst[j] == src[j - to + from]
    ensures forall j | 0 <= j < to || to + n <= j < dst.Length :: dst[j] == old(dst[j])
  {
    for i := to to to + n
      invariant forall j | to <= j < i :: dst[j] == src[j - to + from]
      invariant forall j | 0 <= j < to || i <= j < dst.Length :: dst[j] == old(dst[j])
    {
      dst[i] := src[i - to + from];
    }
  }

  /** Bytes moved towards the front within one array. */
  method Memmove(a: array<Byte>, to: nat, from: nat, n: nat)
    requires to <= from && from + n <= a.Length
    modifies a
    ensures a[..] == old(a[..to]) + old(a[from..from + n]) + old(a[to + n..])
  {
    ghost var s := a[..];
    var d := from - to;
    for i := to to to + n
      invariant forall j | 0 <= j < to || i <= j < a.Length :: a[j] == s[j]
      invariant forall j | to <= j < i :: a[j] == s[j + d]
    {
      a[i] := a[i + d];
    }
    Moved(s, a[..], to, from, n);
  }

  lemma Moved(s: seq<Byte>, s': seq<Byte>, to: nat, from: nat, n: nat)
    requires to <= from && from + n <= |s| && |s'| == |s|
    requires forall j | 0 <= j < to || to + n <= j < |s| :: s'[j] == s[j]
    requires forall j | to <= j < to + n :: s'[j] == s[j + (from - to)]
    ensures s' == s[..to] + s[from..from + n] + s[to + n..]
  {
  }

  /** One row of one table, `k` long, with a gap of zeroes at `base`; a new
      channel's row (`src == null`) is all zeroes. */
  method SpreadRow(src: array?<Byte>, base: nat, n: nat, k: nat) returns (row: array<Byte>)
    requires base + n <= k
    requires src != null ==> k - n <= src.Length
    ensures fresh(row) && row.Length == k
    ensures row[..] == if src == null then seq(k, _ => 0) else Insert<Byte>(src[..k - n], base, n, 0)
  {
    row := new Byte[k];
    if src == null {
      Memset(row, 0, k);
      assert row[..] == seq(k, _ => 0);
    } else {
      if base != 0 {
        Memcpy(row, 0, src, 0, base);
      }
      Memset(row, base, n);
      if base + n < k {
        Memcpy(row, base + n, src, base, k - (base + n));
      }
      ghost var s, s' := src[..k - n], row[..];
      assert s'[..base] == s[..base] by { assert forall j | 0 <= j < base :: s'[j] == s[j]; }
      assert s'[base + n..] == s[base..] by { assert forall j | base + n <= j < k :: s'[j] == s[j - n]; }
      Spread(s, base, n, s');
    }
  }

  lemma Spread(s: seq<Byte>, base: nat, n: nat, s': seq<Byte>)
    requires base <= |s| && |s'| == |s| + n
    requires s'[..base] == s[..base] && s'[base + n..] == s[base..]
    requires forall j | base <= j < base + n :: s'[j] == 0
    ensures s' == Insert<Byte>(s, base, n, 0)
  {
    assert s' == s'[..base] + s'[base..base + n] + s'[base + n..];
    assert s'[base..base + n] == seq(n, _ => 0);
  }

  /** The arrays behind the rows. */
  ghost function RowArrays<T>(rows: seq<Config<T>>): set<object> {
    (set i | 0 <= i < |rows| :: rows[i].flagTable as object) + (set i | 0 <= i < |rows| :: rows[i].coefTable as object)
  }

  /** No two rows share memory. */
  ghost predicate Apart<T>(rows: seq<Config<T>>) {
    && (forall i, j | 0 <= i < j < |rows| ::
          rows[i].flagTable != rows[j].flagTable && rows[i].coefTable != rows[j].coefTable)
    && (forall i, j | 0 <= i < |rows| && 0 <= j < |rows| :: rows[i].flagTable != rows[j].coefTable)
  }

  ghost predicate LongEnough<T>(rows: seq<Config<T>>, n: nat) {
    forall i | 0 <= i < |rows| :: n <= rows[i].flagTable.Length && n <= rows[i].coefTable.Length
  }

  ghost function Infos<T>(rows: seq<Config<T>>): (s: seq<T>)
    ensures |s| == |rows|
  {
    seq(|rows|, i requires 0 <= i < |rows| => rows[i].info)
  }

  ghost function Flags<T>(rows: seq<Config<T>>, n: nat): (m: Square)
    requires LongEnough(rows, n)
    reads RowArrays(rows)
    ensures |m| == |rows| && forall i | 0 <= i < |rows| :: |m[i]| == n && m[i] == rows[i].flagTable[..n]
  {
    seq(|rows|, i requires 0 <= i < |rows| && LongEnough(rows, n) reads RowArrays(rows) => rows[i].flagTable[..n])
  }

  ghost function Coefs<T>(rows: seq<Config<T>>, n: nat): (m: Square)
    requires LongEnough(rows, n)
    reads RowArrays(rows)
    ensures |m| == |rows| && forall i | 0 <= i < |rows| :: |m[i]| == n && m[i] == rows[i].coefTable[..n]
  {
    seq(|rows|, i requires 0 <= i < |rows| && LongEnough(rows, n) reads RowArrays(rows) => rows[i].coefTable[..n])
  }

  class Interconnect<T> {
    const adapters: array<Adapter>
    var maxAdapter: nat
    var table: seq<Config<T>>
    var total: nat

    ghost function Contents(): State<T>
      requires LongEnough(table, total)
      reads this, adapters, RowArrays(table)
    {
      State(adapters[..], Infos(table), Flags(table, total), Coefs(table, total))
    }

    ghost predicate Valid()
      reads this, adapters, RowArrays(table)
    {
      && adapters.Length == MAX_ADAPTER && |table| == total
      && Apart(table) && LongEnough(table, total) && LiGrid.Valid(Contents())
      && maxAdapter <= MAX_ADAPTER
      && (forall i | maxAdapter <= i < MAX_ADAPTER :: !adapters[i].live)
      && (maxAdapter != 0 ==> adapters[maxAdapter - 1].live)
    }

    constructor ()
      ensures Valid() && total == 0 && fresh(adapters)
      ensures forall i | 0 <= i < MAX_ADAPTER :: !adapters[i].live
    {
      adapters := new Adapter[MAX_ADAPTER](_ => NO_ADAPTER);
      maxAdapter, table, total := 0, [], 0;
      new;
      NoChannels(adapters[..]);
    }

    /** Row `i` of the rebuilt tables: blank for a new channel, an old row spread
        over the gap otherwise. */
    method SpreadConfig(base: nat, channels: nat, blank: T, i: nat, j: nat) returns (c: Config<T>)
      requires |table| == total && LongEnough(table, total) && base <= total && i < total + channels
      requires j == SourceRow(i, base, channels)
      ensures fresh(c.flagTable) && fresh(c.coefTable) && c.flagTable != c.coefTable
      ensures c.flagTable.Length == c.coefTable.Length == total + channels
      ensures IsSquare(Flags(table, total)) && IsSquare(Coefs(table, total))
      ensures c.info == Insert(Infos(table), base, channels, blank)[i]
      ensures c.flagTable[..] == InsertSquare(Flags(table, total), base, channels)[i]
      ensures c.coefTable[..] == InsertSquare(Coefs(table, total), base, channels)[i]
    {
      var flagRow, coefRow, info;
      var k := total + channels;
      if base <= i < base + channels {
        flagRow := SpreadRow(null, base, channels, k);
        coefRow := SpreadRow(null, base, channels, k);
        info := blank;
      } else {
        flagRow := SpreadRow(table[j].flagTable, base, channels, k);
        coefRow := SpreadRow(table[j].coefTable, base, channels, k);
        info := table[j].info;
      }
      c := Config(info, flagRow, coefRow);
      InsertedRow(Flags(table, total), base, channels, i);
      InsertedRow(Coefs(table, total), base, channels, i);
      InsertedAt(Infos(table), base, channels, blank, i);
    }

    /** The rebuilt rows of both tables. */
    method SpreadRows(base: nat, channels: nat, blank: T) returns (rows: seq<Config<T>>)
      requires |table| == total && LongEnough(table, total) && base <= total
      ensures |rows| == total + channels && Apart(rows) && LongEnough(rows, total + channels)
      ensures forall r | 0 <= r < |rows| :: fresh(rows[r].flagTable) && fresh(rows[r].coefTable)
      ensures Infos(rows) == Insert(Infos(table), base, channels, blank)
      ensures IsSquare(Flags(table, total)) && IsSquare(Coefs(table, total))
      ensures Flags(rows, total + channels) == InsertSquare(Flags(table, total), base, channels)
      ensures Coefs(rows, total + channels) == InsertSquare(Coefs(table, total), base, channels)
    {
      hide Insert, InsertSquare, RowArrays, Apart, SourceRow, Flags, Coefs, Infos, LongEnough;
      var k := total + channels;
      ghost var f0, c0 := Flags(table, total), Coefs(table, total);
      ghost var f, c := InsertSquare(f0, base, channels), InsertSquare(c0, base, channels);
      ghost var infos := Insert(Infos(table), base, channels, blank);
      rows := [];
      EmptyRows<T>(k);
      var i, j := 0, 0;
      NextSource(0, base, channels);
      while i < k
        invariant 0 <= i <= k && |rows| == i && j == SourceRow(i, base, channels)
        invariant Apart(rows) && LongEnough(rows, k)
        invariant forall r | 0 <= r < i :: fresh(rows[r].flagTable) && fresh(rows[r].coefTable)
        invariant Infos(rows) == infos[..i]
        invariant Flags(table, total) == f0 && Coefs(table, total) == c0
        invariant Flags(rows, k) == f[..i] && Coefs(rows, k) == c[..i]
      {
        var row := SpreadConfig(base, channels, blank, i, j);
        assert row.flagTable[..k] == row.flagTable[..] && row.coefTable[..k] == row.coefTable[..];
        AppendApart(rows, row, k);
        AppendTables(rows, row, k);
        assert f[..i + 1] == f[..i] + [f[i]] && c[..i + 1] == c[..i] + [c[i]];
        rows := rows + [row];
        NextSource(i, base, channels);
        if !(base <= i < base + channels) {
          j := j + 1;
        }
        i := i + 1;
      }
    }

    /** The line-interconnect part of `diva_add_card`, for adapter `id`. */
    method AddCard(id: nat, pri: bool, blank: T)
      requires Valid() && id < MAX_ADAPTER && id <= maxAdapter && !adapters[id].live
      modifies this, adapters
      ensures Valid()
      ensures Contents() == LiGrid.AddCard(old(Contents()), id, if pri then CHANNELS_PRI else CHANNELS_BRI, blank)
    {
      hide Insert, InsertSquare, Sum, Flags, Coefs, Infos, Tiled, IsSquare, Apart;
      ghost var st := Contents();
      var channels := if pri then CHANNELS_PRI else CHANNELS_BRI;
      var liBase := 0;
      var i := 0;
      while i < id
        invariant 0 <= i <= id && liBase == NewBase(st.ads, i)
      {
        if adapters[i].live {
          liBase := adapters[i].base + adapters[i].channels;
        }
        i := i + 1;
      }
      AddTiled(st.ads, id, channels, total);
      var rows := SpreadRows(liBase, channels, blank);
      ghost var st' := LiGrid.AddCard(st, id, channels, blank);
      assert Flags(table, total) == st.flag && Coefs(table, total) == st.coef;
      assert Infos(rows) == st'.info && Flags(rows, total + channels) == st'.flag
        && Coefs(rows, total + channels) == st'.coef;
      total := total + channels;
      table := rows;
      OnlyRows();
      ShiftUp(id, channels, liBase);
      assert Flags(table, total) == st'.flag && Coefs(table, total) == st'.coef;
      assert Contents() == st';
    }

    /** The new adapter's entry, and the later ones moved up. */
    method ShiftUp(id: nat, channels: nat, liBase: nat)
      requires adapters.Length == MAX_ADAPTER && id < MAX_ADAPTER && id <= maxAdapter <= MAX_ADAPTER
      requires liBase == NewBase(adapters[..], id)
      requires forall i | maxAdapter <= i < MAX_ADAPTER :: !adapters[i].live
      requires maxAdapter != 0 ==> adapters[maxAdapter - 1].live
      modifies adapters, `maxAdapter
      ensures adapters[..] == Add(old(adapters[..]), id, channels)
      ensures maxAdapter <= MAX_ADAPTER && (forall i | maxAdapter <= i < MAX_ADAPTER :: !adapters[i].live)
      ensures maxAdapter != 0 ==> adapters[maxAdapter - 1].live
    {
      ghost var ads := adapters[..];
      var i := id + 1;
      while i < maxAdapter
        invariant id < i && (i <= maxAdapter || i == id + 1)
        invariant forall k | 0 <= k < MAX_ADAPTER ::
          adapters[k] == if id < k < i then Add(ads, id, channels)[k] else ads[k]
        modifies adapters
      {
        if adapters[i].live {
          adapters[i] := adapters[i].(base := adapters[i].base + channels);
        }
        i := i + 1;
      }
      adapters[id] := Adapter(true, liBase, channels);
      if id == maxAdapter {
        maxAdapter := maxAdapter + 1;
      }
    }

    /** `clean_adapter`: the rows and columns of a removed adapter close up. */
    method CleanAdapter(id: nat)
      requires Valid() && id < MAX_ADAPTER && adapters[id].live
      modifies this, adapters, RowArrays(table)
      ensures Valid()
      ensures Contents() == LiGrid.RemoveCard(old(Contents()), id)
    {
      hide Delete, DeleteColumns, DeleteSquare, Sum, Infos, Flags, Coefs, Tiled, IsSquare, Apart, RowArrays;
      OnlyRows();
      ghost var st := Contents();
      RemoveFits(st.ads, id, total);
      var a := adapters[id];
      var k := total - a.channels;
      ghost var st' := LiGrid.RemoveCard(st, id);
      CloseRows(a.base, a.channels);
      total := k;
      OnlyRows();
      ShiftDown(id);
      assert Flags(table, total) == st'.flag && Coefs(table, total) == st'.coef;
      assert Contents() == st';
    }

    /** The adapter's entry cleared, and the later ones moved down. */
    method ShiftDown(id: nat)
      requires adapters.Length == MAX_ADAPTER && id < MAX_ADAPTER && maxAdapter <= MAX_ADAPTER
      requires forall i | maxAdapter <= i < MAX_ADAPTER :: !adapters[i].live
      requires forall i | id < i < MAX_ADAPTER && adapters[i].live :: adapters[id].channels <= adapters[i].base
      modifies adapters, `maxAdapter
      ensures adapters[..] == Remove(old(adapters[..]), id)
      ensures maxAdapter <= MAX_ADAPTER && (forall i | maxAdapter <= i < MAX_ADAPTER :: !adapters[i].live)
      ensures maxAdapter != 0 ==> adapters[maxAdapter - 1].live
    {
      ghost var ads := adapters[..];
      var channels := adapters[id].channels;
      var i := id + 1;   // the entry of `id` itself is cleared below
      while i < maxAdapter
        invariant id < i && (i <= maxAdapter || i == id + 1)
        invariant forall k | 0 <= k < MAX_ADAPTER ::
          adapters[k] == if id < k < i then Remove(ads, id)[k] else ads[k]
        modifies adapters
      {
        if adapters[i].live {
          adapters[i] := adapters[i].(base := adapters[i].base - channels);
        }
        i := i + 1;
      }
      adapters[id] := NO_ADAPTER;
      assert adapters[..] == Remove(ads, id);
      while maxAdapter != 0 && !adapters[maxAdapter - 1].live
        invariant maxAdapter <= MAX_ADAPTER && forall i | maxAdapter <= i < MAX_ADAPTER :: !adapters[i].live
        invariant adapters[..] == Remove(ads, id)
      {
        maxAdapter := maxAdapter - 1;
      }
    }

    lemma OnlyRows()
      ensures this !in RowArrays(table) && adapters !in RowArrays(table)
    {
    }

    /** The memory moves of `clean_adapter`: whole rows first, then the columns
        within each remaining row of both tables. */
    method CloseRows(base: nat, n: nat)
      requires |table| == total && Apart(table) && LongEnough(table, total) && base + n <= total
      modifies `table, RowArrays(table)
      ensures |table| == total - n && Apart(table) && LongEnough(table, total)
      ensures IsSquare(old(Flags(table, total))) && IsSquare(old(Coefs(table, total)))
      ensures Infos(table) == Delete(old(Infos(table)), base, n)
      ensures Flags(table, total - n) == DeleteSquare(old(Flags(table, total)), base, n)
      ensures Coefs(table, total - n) == DeleteSquare(old(Coefs(table, total)), base, n)
    {
      hide Flags, Coefs, Infos, Apart, Delete, DeleteColumns, RowArrays, LongEnough;
      var k := total - n;
      OnlyRows();
      DeletedRows(table, base, n);
      DeletedTables(table, base, n);
      var rows := table[..base] + table[base + n..];   // the rows moved
      ClosedUp(table, base, n);
      Shorter(rows, total, k);
      if k != 0 && base < k {
        CloseColumns(rows, base, n, k);
      } else {
        ShorterColumns(rows, base, n, k);
      }
      table := rows;
    }
  }

  /** The old row that row `i` of the rebuilt table is made from. */
  function SourceRow(i: nat, base: nat, n: nat): nat {
    if i < base then i else if i < base + n then base else i - n
  }

  lemma NextSource(i: nat, base: nat, n: nat)
    ensures SourceRow(0, base, n) == 0
    ensures SourceRow(i + 1, base, n) == SourceRow(i, base, n) + if base <= i < base + n then 0 else 1
  {
  }

  lemma InsertedAt<T>(s: seq<T>, base: nat, n: nat, v: T, i: nat)
    requires base <= |s| && i < |s| + n
    ensures Insert(s, base, n, v)[i] == if base <= i < base + n then v else s[SourceRow(i, base, n)]
  {
  }

  lemma InsertedRow(m: Square, base: nat, n: nat, i: nat)
    requires IsSquare(m) && base <= |m| && i < |m| + n
    ensures InsertSquare(m, base, n)[i] ==
      if base <= i < base + n then seq(|m| + n, _ => 0) else Insert<Byte>(m[SourceRow(i, base, n)], base, n, 0)
  {
    InsertedAt(InsertColumns(m, base, n), base, n, seq(|m| + n, _ => 0), i);
  }

  /** A row made of arrays that none of `rows` uses. */
  ghost predicate Separate<T>(rows: seq<Config<T>>, row: Config<T>) {
    && row.flagTable != row.coefTable
    && forall i | 0 <= i < |rows| ::
         && rows[i].flagTable != row.flagTable && rows[i].flagTable != row.coefTable
         && rows[i].coefTable != row.flagTable && rows[i].coefTable != row.coefTable
  }

  lemma EmptyRows<T>(k: nat)
    ensures Apart<T>([]) && Infos<T>([]) == [] && LongEnough<T>([], k)
    ensures Flags<T>([], k) == [] && Coefs<T>([], k) == []
  {
  }

  lemma AppendApart<T>(rows: seq<Config<T>>, row: Config<T>, k: nat)
    requires Apart(rows) && LongEnough(rows, k) && Separate(rows, row)
    requires k <= row.flagTable.Length && k <= row.coefTable.Length
    ensures Apart(rows + [row]) && LongEnough(rows + [row], k)
    ensures Infos(rows + [row]) == Infos(rows) + [row.info]
  {
  }

  lemma AppendTables<T>(rows: seq<Config<T>>, row: Config<T>, k: nat)
    requires LongEnough(rows, k) && LongEnough(rows + [row], k)
    requires k <= row.flagTable.Length && k <= row.coefTable.Length
    ensures Flags(rows + [row], k) == Flags(rows, k) + [row.flagTable[..k]]
    ensures Coefs(rows + [row], k) == Coefs(rows, k) + [row.coefTable[..k]]
  {
    hide RowArrays;
    var rows' := rows + [row];
    assert forall i | 0 <= i < |rows| :: rows'[i] == rows[i];
  }

  lemma DeletedAt<T>(s: seq<T>, base: nat, n: nat)
    requires base + n <= |s|
    ensures forall i | 0 <= i < |s| - n :: Delete(s, base, n)[i] == s[Up(i, base, n)]
  {
  }

  lemma DeletedApart<T>(rows: seq<Config<T>>, base: nat, n: nat)
    requires Apart(rows) && base + n <= |rows|
    ensures Apart(Delete(rows, base, n))
  {
    hide Delete;
    DeletedAt(rows, base, n);
    var rows' := Delete(rows, base, n);
    forall i, j | 0 <= i < j < |rows'|
      ensures rows'[i].flagTable != rows'[j].flagTable && rows'[i].coefTable != rows'[j].coefTable
    {
      assert rows'[i] == rows[Up(i, base, n)] && rows'[j] == rows[Up(j, base, n)];
    }
  }

  /** What deleting rows of the table means for the two squares. */
  lemma DeletedRows<T>(rows: seq<Config<T>>, base: nat, n: nat)
    requires Apart(rows) && LongEnough(rows, |rows|) && base + n <= |rows|
    ensures var rows' := Delete(rows, base, n);
      && Apart(rows') && LongEnough(rows', |rows|) && RowArrays(rows') <= RowArrays(rows)
      && Infos(rows') == Delete(Infos(rows), base, n)
  {
    DeletedApart(rows, base, n);
    DeletedAt(rows, base, n);
    DeletedAt(Infos(rows), base, n);
    hide Apart, Delete;
  }

  lemma DeletedTables<T>(rows: seq<Config<T>>, base: nat, n: nat)
    requires LongEnough(rows, |rows|) && base + n <= |rows| && LongEnough(Delete(rows, base, n), |rows|)
    ensures var rows' := Delete(rows, base, n);
      && Flags(rows', |rows|) == Delete(Flags(rows, |rows|), base, n)
      && Coefs(rows', |rows|) == Delete(Coefs(rows, |rows|), base, n)
  {
    var rows' := Delete(rows, base, n);
    assert forall i | 0 <= i < |rows'| :: rows'[i] == rows[Up(i, base, n)];
  }

  lemma Shorter<T>(rows: seq<Config<T>>, m: nat, k: nat)
    requires LongEnough(rows, m) && k <= m
    ensures LongEnough(rows, k)
  {
  }

  lemma ClosedUp<T>(s: seq<T>, base: nat, n: nat)
    requires base + n <= |s|
    ensures Delete(s, base, n) == s[..base] + s[base + n..]
  {
  }

  lemma ShorterColumns<T>(rows: seq<Config<T>>, base: nat, n: nat, k: nat)
    requires LongEnough(rows, k + n) && base == k
    ensures Flags(rows, k) == DeleteColumns(Flags(rows, k + n), base, n)
    ensures Coefs(rows, k) == DeleteColumns(Coefs(rows, k + n), base, n)
  {
    forall i | 0 <= i < |rows|
      ensures Delete(rows[i].flagTable[..k + n], k, n) == rows[i].flagTable[..k]
      ensures Delete(rows[i].coefTable[..k + n], k, n) == rows[i].coefTable[..k]
    {
    }
  }

  /** The columns within every row of both tables close up. */
  method CloseColumns<T>(rows: seq<Config<T>>, base: nat, n: nat, k: nat)
    requires |rows| == k && Apart(rows) && LongEnough(rows, k + n) && base < k
    modifies RowArrays(rows)
    ensures Flags(rows, k) == DeleteColumns(old(Flags(rows, k + n)), base, n)
    ensures Coefs(rows, k) == DeleteColumns(old(Coefs(rows, k + n)), base, n)
  {
    hide Delete, Apart, RowArrays, Flags, Coefs;
    ghost var f, c := Flags(rows, k + n), Coefs(rows, k + n);
    for i := 0 to k
      invariant forall r | 0 <= r < i :: Closed(rows[r], f[r], c[r], base, n, k)
      invariant forall r | i <= r < k :: Open(rows[r], f[r], c[r], k + n)
    {
      AloneAt(rows, i);
      assert Open(rows[i], f[i], c[i], k + n);
      CloseConfig(rows[i], f[i], c[i], base, n, k);
    }
    assert forall r | 0 <= r < k :: Closed(rows[r], f[r], c[r], base, n, k);
    assert Flags(rows, k) == DeleteColumns(f, base, n);
    assert Coefs(rows, k) == DeleteColumns(c, base, n);
  }

  lemma AloneAt<T>(rows: seq<Config<T>>, i: nat)
    requires Apart(rows) && i < |rows|
    ensures rows[i].flagTable in RowArrays(rows) && rows[i].coefTable in RowArrays(rows)
    ensures rows[i].flagTable != rows[i].coefTable
    ensures forall r | 0 <= r < |rows| && r != i ::
      && rows[r].flagTable != rows[i].flagTable && rows[r].flagTable != rows[i].coefTable
      && rows[r].coefTable != rows[i].flagTable && rows[r].coefTable != rows[i].coefTable
  {
    forall r | 0 <= r < |rows| && r != i
      ensures rows[r].flagTable != rows[i].flagTable && rows[r].coefTable != rows[i].coefTable
    {
      if r < i {
        assert rows[r].flagTable != rows[i].flagTable;
      }
    }
  }

  method CloseConfig<T>(row: Config<T>, ghost f: seq<Byte>, ghost c: seq<Byte>, base: nat, n: nat, k: nat)
    requires |f| == |c| == k + n && base < k && k + n <= row.flagTable.Length && k + n <= row.coefTable.Length
    requires row.flagTable != row.coefTable && Open(row, f, c, k + n)
    modifies row.flagTable, row.coefTable
    ensures Closed(row, f, c, base, n, k)
  {
    hide Delete;
    CloseRow(row.flagTable, base, n, k);
    CloseRow(row.coefTable, base, n, k);
  }

  ghost predicate Open<T>(row: Config<T>, f: seq<Byte>, c: seq<Byte>, m: nat)
    requires m <= row.flagTable.Length && m <= row.coefTable.Length
    reads row.flagTable, row.coefTable
  {
    row.flagTable[..m] == f && row.coefTable[..m] == c
  }

  ghost predicate Closed<T>(row: Config<T>, f: seq<Byte>, c: seq<Byte>, base: nat, n: nat, k: nat)
    requires |f| == |c| == k + n && base <= k && k <= row.flagTable.Length && k <= row.coefTable.Length
    reads row.flagTable, row.coefTable
  {
    row.flagTable[..k] == Delete(f, base, n) && row.coefTable[..k] == Delete(c, base, n)
  }

  method CloseRow(row: array<Byte>, base: nat, n: nat, k: nat)
    requires k + n <= row.Length && base < k
    modifies row
    ensures row[..k] == Delete(old(row[..k + n]), base, n)
  {
    ghost var r := row[..];
    Memmove(row, base, base + n, k - base);
    assert row[..k] == r[..base] + r[base + n..base + n + (k - base)];
  }

  lemma NoChannels(ads: seq<Adapter>)
    requires forall i | 0 <= i < |ads| :: !ads[i].live
    ensures Sum(ads) == 0
  {
    if ads != [] {
      NoChannels(ads[..|ads| - 1]);
    }
  }

  const ID_LIMIT := 100
  const NO_FREE_ID := 999

  /** `num` is the least number from 1 to the limit that no card has, or the
      error number if there is none. */
  predicate FreeId(cards: seq<nat>, num: nat) {
    if num == NO_FREE_ID
    then forall k | 1 <= k <= ID_LIMIT :: k in cards
    else 1 <= num <= ID_LIMIT && num !in cards && forall k | 1 <= k < num :: k in cards
  }

  /** `find_free_id` over the list of cards. */
  method FindFreeId(cards: seq<nat>) returns (num: nat)
    ensures FreeId(cards, num)
  {
    num := 0;
    while num < ID_LIMIT
      invariant 0 <= num <= ID_LIMIT && forall k | 1 <= k <= num :: k in cards
    {
      num := num + 1;
      var p := 0;
      while p < |cards| && cards[p] != num
        invariant 0 <= p <= |cards| && num !in cards[..p]
      {
        p := p + 1;
      }
      if p == |cards| {
        assert cards[..p] == cards;
        return;
      }
      assert cards[p] in cards;
    }
    num := NO_FREE_ID;
  }

  /** The search runs past the table of adapters, which is shorter than its
      limit and is indexed without a test. The number found has a place in the
      table exactly when some place is not live; that place is then not live
      and leaves no gap behind the last live adapter, as `AddCard` needs it. */
  lemma FreeIdFits<T>(ic: Interconnect<T>, cards: seq<nat>, num: nat)
    requires ic.Valid() && forall i | 0 <= i < MAX_ADAPTER :: ic.adapters[i].live <==> i + 1 in cards
    requires FreeId(cards, num)
    ensures num <= MAX_ADAPTER <==> exists i | 0 <= i < MAX_ADAPTER :: !ic.adapters[i].live
    ensures num <= MAX_ADAPTER ==> !ic.adapters[num - 1].live && num - 1 <= ic.maxAdapter
  {
    if num <= MAX_ADAPTER {
      assert ic.adapters[num - 1].live <==> num - 1 + 1 in cards;
      if ic.maxAdapter < MAX_ADAPTER {
        assert ic.adapters[ic.maxAdapter].live <==> ic.maxAdapter + 1 in cards;
      }
    } else {
      forall i | 0 <= i < MAX_ADAPTER ensures ic.adapters[i].live {
        assert i + 1 in cards;
      }
    }
  }
}
