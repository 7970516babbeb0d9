/** init_nse from nse_tabular/nse_table.H: the table file's data lines are
    stored into the table arrays in the loop order of init_nse (rho
    outermost, then T, then Ye), one line per grid point, with a missing
    line reported as an error. */
module NseTable {
  import opened Numerics
  import opened NseGrid
  import opened NseInterpolants

  datatype Result<T> = Success(value: T) | Failure(error: string)

  // ---------------------------------------------------------------------
  // init_nse

  /** One data line of the table file, already split into numbers: the
      three coordinates (read and discarded), the six scalar fields and
      the mass fractions. */
  datatype TableLine = TableLine(temp: real, dens: real, ye: real,
                                 abar: real, bea: real, dyedt: real,
                                 dabardt: real, dbeadt: real, enu: real,
                                 massfrac: seq<real>)

  /** What one getline returns: an empty line, or a data line. */
  datatype Line = Blank | Row(entry: TableLine)

  /** The table arrays: one value per grid point, at offset nse_idx - 1;
      massfrac[n-1] is the array of species n. */
  datatype Tables = Tables(abar: seq<real>, bea: seq<real>, dyedt: seq<real>,
                           dabardt: seq<real>, dbeadt: seq<real>, enu: seq<real>,
                           massfrac: seq<seq<real>>)

  predicate TablesOk(g: Geometry, tab: Tables, numSpec: int)
  {
    Fits(g, tab.abar) && Fits(g, tab.bea) && Fits(g, tab.dyedt) &&
    Fits(g, tab.dabardt) && Fits(g, tab.dbeadt) && Fits(g, tab.enu) &&
    |tab.massfrac| == numSpec &&
    forall n :: 0 <= n < numSpec ==> Fits(g, tab.massfrac[n])
  }

  /** The line the k-th data read gets (k from 0): the file has a 4-line
      header, and reading past the end gives an empty line.  This holds
      for a file whose last line ends in a newline; the model assumes
      every file does. */
  function DataLine(lines: seq<Line>, k: nat): Line
  {
    if 4 + k < |lines| then lines[4 + k] else Blank
  }

  /** Every data line carries one mass fraction per species. */
  predicate RowsFit(lines: seq<Line>, numSpec: nat)
  {
    forall i :: 0 <= i < |lines| && lines[i].Row? ==> |lines[i].entry.massfrac| == numSpec
  }

  /** The file holds a data line for every grid point. */
  predicate Complete(g: Geometry, lines: seq<Line>)
  {
    forall k :: 0 <= k < Size(g) ==> DataLine(lines, k).Row?
  }

  /** The entry of the k-th data line. */
  function Entry(lines: seq<Line>, k: nat): TableLine
    requires DataLine(lines, k).Row?
  {
    DataLine(lines, k).entry
  }

  /** The tables a complete file describes: 0-based offset k holds the
      k-th data line. */
  function Expected(g: Geometry, numSpec: nat, lines: seq<Line>): (tab: Tables)
    requires GeometryOk(g) && Complete(g, lines) && RowsFit(lines, numSpec)
    ensures TablesOk(g, tab, numSpec)
  {
    var n := Size(g);
    Tables(seq(n, k requires 0 <= k < n => Entry(lines, k).abar),
           seq(n, k requires 0 <= k < n => Entry(lines, k).bea),
           seq(n, k requires 0 <= k < n => Entry(lines, k).dyedt),
           seq(n, k requires 0 <= k < n => Entry(lines, k).dabardt),
           seq(n, k requires 0 <= k < n => Entry(lines, k).dbeadt),
           seq(n, k requires 0 <= k < n => Entry(lines, k).enu),
           seq(numSpec, s requires 0 <= s < numSpec =>
             seq(n, k requires 0 <= k < n => Entry(lines, k).massfrac[s])))
  }

  /** The six scalar table arrays are distinct and have `size` cells; the
      mass-fraction array has one row per species. */
  ghost predicate Arrays(size: int, numSpec: int,
                         abar: array<real>, bea: array<real>, dyedt: array<real>,
                         dabardt: array<real>, dbeadt: array<real>, enu: array<real>,
                         mf: array2<real>)
  {
    abar.Length == size && bea.Length == size && dyedt.Length == size &&
    dabardt.Length == size && dbeadt.Length == size && enu.Length == size &&
    mf.Length0 == numSpec && mf.Length1 == size &&
    abar != bea && abar != dyedt && abar != dabardt && abar != dbeadt && abar != enu &&
    bea != dyedt && bea != dabardt && bea != dbeadt && bea != enu && dyedt != dabardt &&
    dyedt != dbeadt && dyedt != enu && dabardt != dbeadt && dabardt != enu && dbeadt != enu
  }

  /** The first `count` offsets hold the first `count` data lines. */
  ghost predicate Filled(lines: seq<Line>, count: int,
                         abar: array<real>, bea: array<real>, dyedt: array<real>,
                         dabardt: array<real>, dbeadt: array<real>, enu: array<real>,
                         mf: array2<real>)
    reads abar, bea, dyedt, dabardt, dbeadt, enu, mf
  {
    0 <= count <= abar.Length && count <= bea.Length && count <= dyedt.Length &&
    count <= dabardt.Length && count <= dbeadt.Length && count <= enu.Length &&
    count <= mf.Length1 &&
    (forall k :: 0 <= k < count ==> DataLine(lines, k).Row? && |Entry(lines, k).massfrac| == mf.Length0) &&
    (forall k :: 0 <= k < count ==> abar[k] == Entry(lines, k).abar && bea[k] == Entry(lines, k).bea) &&
    (forall k :: 0 <= k < count ==> dyedt[k] == Entry(lines, k).dyedt && dabardt[k] == Entry(lines, k).dabardt) &&
    (forall k :: 0 <= k < count ==> dbeadt[k] == Entry(lines, k).dbeadt && enu[k] == Entry(lines, k).enu) &&
    (forall s, k :: 0 <= s < mf.Length0 && 0 <= k < count ==> mf[s, k] == Entry(lines, k).massfrac[s])
  }

  /** Store the k-th data line at 0-based offset k: the six scalar
      fields, then the mass fractions species by species. */
  method StoreLine(lines: seq<Line>, k: int, e: TableLine,
                   abar: array<real>, bea: array<real>, dyedt: array<real>,
                   dabardt: array<real>, dbeadt: array<real>, enu: array<real>,
                   mf: array2<real>)
    requires Arrays(abar.Length, mf.Length0, abar, bea, dyedt, dabardt, dbeadt, enu, mf)
    requires Filled(lines, k, abar, bea, dyedt, dabardt, dbeadt, enu, mf)
    requires k < abar.Length && DataLine(lines, k) == Row(e) && |e.massfrac| == mf.Length0
    modifies abar, bea, dyedt, dabardt, dbeadt, enu, mf
    ensures Filled(lines, k + 1, abar, bea, dyedt, dabardt, dbeadt, enu, mf)
    ensures forall j :: k < j < abar.Length ==>
              abar[j] == old(abar[j]) && bea[j] == old(bea[j]) && dyedt[j] == old(dyedt[j]) &&
              dabardt[j] == old(dabardt[j]) && dbeadt[j] == old(dbeadt[j]) && enu[j] == old(enu[j])
    ensures forall s, j :: 0 <= s < mf.Length0 && k < j < mf.Length1 ==> mf[s, j] == old(mf[s, j])
  {
    abar[k] := e.abar;
    bea[k] := e.bea;
    dyedt[k] := e.dyedt;
    dabardt[k] := e.dabardt;
    dbeadt[k] := e.dbeadt;
    enu[k] := e.enu;
    StoreMassFractions(mf, k, e.massfrac);
  }

  /** Set column `col` of the mass-fraction array to `fracs`, species by
      species (the innermost loop of init_nse). */
  method StoreMassFractions(mf: array2<real>, col: int, fracs: seq<real>)
    requires 0 <= col < mf.Length1 && |fracs| == mf.Length0
    modifies mf
    ensures forall s :: 0 <= s < mf.Length0 ==> mf[s, col] == fracs[s]
    ensures forall s, k :: 0 <= s < mf.Length0 && 0 <= k < mf.Length1 && k != col ==> mf[s, k] == old(mf[s, k])
  {
    for n := 1 to mf.Length0 + 1
      invariant forall s :: 0 <= s < n - 1 ==> mf[s, col] == fracs[s]
      invariant forall s, k :: 0 <= s < mf.Length0 && 0 <= k < mf.Length1 && k != col ==> mf[s, k] == old(mf[s, k])
    {
      mf[n - 1, col] := fracs[n - 1];
    }
  }

  /** The 2-D mass-fraction array as one sequence per species. */
  function SpeciesRows(mf: array2<real>): (r: seq<seq<real>>)
    reads mf
    ensures |r| == mf.Length0
    ensures forall s :: 0 <= s < mf.Length0 ==> |r[s]| == mf.Length1
    ensures forall s, k :: 0 <= s < mf.Length0 && 0 <= k < mf.Length1 ==> r[s][k] == mf[s, k]
  {
    seq(mf.Length0, s requires 0 <= s < mf.Length0 reads mf =>
      seq(mf.Length1, k requires 0 <= k < mf.Length1 reads mf => mf[s, k]))
  }

  /** Tables whose every offset holds the corresponding data line are the
      tables the file describes. */
  lemma TablesFromEntries(g: Geometry, numSpec: nat, lines: seq<Line>, tab: Tables)
    requires GeometryOk(g) && Complete(g, lines) && RowsFit(lines, numSpec)
    requires TablesOk(g, tab, numSpec)
    requires forall k :: 0 <= k < Size(g) ==> tab.abar[k] == Entry(lines, k).abar && tab.bea[k] == Entry(lines, k).bea
    requires forall k :: 0 <= k < Size(g) ==> tab.dyedt[k] == Entry(lines, k).dyedt && tab.dabardt[k] == Entry(lines, k).dabardt
    requires forall k :: 0 <= k < Size(g) ==> tab.dbeadt[k] == Entry(lines, k).dbeadt && tab.enu[k] == Entry(lines, k).enu
    requires forall s, k :: 0 <= s < numSpec && 0 <= k < Size(g) ==> tab.massfrac[s][k] == Entry(lines, k).massfrac[s]
    ensures tab == Expected(g, numSpec, lines)
  {
    var want := Expected(g, numSpec, lines);
    assert tab.abar == want.abar;
    assert tab.bea == want.bea;
    assert tab.dyedt == want.dyedt;
    assert tab.dabardt == want.dabardt;
    assert tab.dbeadt == want.dbeadt;
    assert tab.enu == want.enu;
    forall s | 0 <= s < numSpec
      ensures tab.massfrac[s] == want.massfrac[s]
    {
      forall k | 0 <= k < Size(g)
        ensures tab.massfrac[s][k] == want.massfrac[s][k]
      {
      }
    }
  }

  /** The innermost loop of init_nse for one (irho, it) pair: read the
      next ye.n data lines and store each at offset nse_idx(irho, it, iye).
      `pos` is the stream position, counted in data lines read so far; it
      starts at the offset of the row's first entry minus one.  On an empty
      line the read stops and `next` is the position of that line. */
  method ReadYeRow(g: Geometry, lines: seq<Line>, irho: int, it: int, pos: int,
                   abar: array<real>, bea: array<real>, dyedt: array<real>,
                   dabardt: array<real>, dbeadt: array<real>, enu: array<real>,
                   mf: array2<real>) returns (ok: bool, next: int)
    requires GeometryOk(g) && 1 <= irho <= g.rho.n && 1 <= it <= g.temp.n
    requires Arrays(Size(g), mf.Length0, abar, bea, dyedt, dabardt, dbeadt, enu, mf)
    requires RowsFit(lines, mf.Length0)
    requires pos == Idx(g, irho, it, 1) - 1
    requires Filled(lines, pos, abar, bea, dyedt, dabardt, dbeadt, enu, mf)
    modifies abar, bea, dyedt, dabardt, dbeadt, enu, mf
    ensures ok ==> next == Idx(g, irho, it + 1, 1) - 1
    ensures ok ==> Filled(lines, next, abar, bea, dyedt, dabardt, dbeadt, enu, mf)
    ensures !ok ==> 0 <= next < Size(g) && DataLine(lines, next).Blank?
    ensures !ok ==> forall k :: 0 <= k < next ==> DataLine(lines, k).Row?
  {
    next := pos;
    for iye := 1 to g.ye.n + 1
      invariant next == Idx(g, irho, it, iye) - 1
      invariant Filled(lines, next, abar, bea, dyedt, dabardt, dbeadt, enu, mf)
    {
      var j := Idx(g, irho, it, iye);
      IdxInRange(g, irho, it, iye);
      var line := DataLine(lines, next);
      if line.Blank? {
        return false, next;
      }
      assert 4 + next < |lines|;
      StoreLine(lines, j - 1, line.entry, abar, bea, dyedt, dabardt, dbeadt, enu, mf);
      IdxSuccessor(g, irho, it, iye);
      next := next + 1;
    }
    IdxSuccessor(g, irho, it, g.ye.n);
    ok := true;
  }

  /** The middle loop of init_nse for one density plane: one Ye row per
      temperature, in order. */
  method ReadTempPlane(g: Geometry, lines: seq<Line>, irho: int, pos: int,
                       abar: array<real>, bea: array<real>, dyedt: array<real>,
                       dabardt: array<real>, dbeadt: array<real>, enu: array<real>,
                       mf: array2<real>) returns (ok: bool, next: int)
    requires GeometryOk(g) && 1 <= irho <= g.rho.n
    requires Arrays(Size(g), mf.Length0, abar, bea, dyedt, dabardt, dbeadt, enu, mf)
    requires RowsFit(lines, mf.Length0)
    requires pos == Idx(g, irho, 1, 1) - 1
    requires Filled(lines, pos, abar, bea, dyedt, dabardt, dbeadt, enu, mf)
    modifies abar, bea, dyedt, dabardt, dbeadt, enu, mf
    ensures ok ==> next == Idx(g, irho + 1, 1, 1) - 1
    ensures ok ==> Filled(lines, next, abar, bea, dyedt, dabardt, dbeadt, enu, mf)
    ensures !ok ==> 0 <= next < Size(g) && DataLine(lines, next).Blank?
    ensures !ok ==> forall k :: 0 <= k < next ==> DataLine(lines, k).Row?
  {
    next := pos;
    for it := 1 to g.temp.n + 1
      invariant next == Idx(g, irho, it, 1) - 1
      invariant Filled(lines, next, abar, bea, dyedt, dabardt, dbeadt, enu, mf)
    {
      ok, next := ReadYeRow(g, lines, irho, it, next, abar, bea, dyedt, dabardt, dbeadt, enu, mf);
      if !ok {
        return;
      }
    }
    IdxSuccessor(g, irho, g.temp.n, g.ye.n);
    ok := true;
  }

  /** The outer loop of init_nse: one density plane after the other. */
  method ReadPlanes(g: Geometry, lines: seq<Line>,
                    abar: array<real>, bea: array<real>, dyedt: array<real>,
                    dabardt: array<real>, dbeadt: array<real>, enu: array<real>,
                    mf: array2<real>) returns (ok: bool, next: int)
    requires GeometryOk(g)
    requires Arrays(Size(g), mf.Length0, abar, bea, dyedt, dabardt, dbeadt, enu, mf)
    requires RowsFit(lines, mf.Length0)
    requires Filled(lines, 0, abar, bea, dyedt, dabardt, dbeadt, enu, mf)
    modifies abar, bea, dyedt, dabardt, dbeadt, enu, mf
    ensures ok ==> Filled(lines, Size(g), abar, bea, dyedt, dabardt, dbeadt, enu, mf)
    ensures !ok ==> 0 <= next < Size(g) && DataLine(lines, next).Blank?
    ensures !ok ==> forall k :: 0 <= k < next ==> DataLine(lines, k).Row?
  {
    next := 0;
    for irho := 1 to g.rho.n + 1
      invariant next == Idx(g, irho, 1, 1) - 1
      invariant Filled(lines, next, abar, bea, dyedt, dabardt, dbeadt, enu, mf)
    {
      ok, next := ReadTempPlane(g, lines, irho, next, abar, bea, dyedt, dabardt, dbeadt, enu, mf);
      if !ok {
        return;
      }
    }
    IdxAfterLast(g);
    ok := true;
  }

  /** init_nse without the file handling: read the data lines one after
      the other in the irho / it / iye loop order and store each at offset
      nse_idx(irho, it, iye).  An empty line is the read error.  The
      stream position equals nse_idx - 1 at every read (the loops visit
      the offsets 1, 2, ..., Size in order), so the k-th line read lands
      at 0-based offset k. */
  method InitNse(g: Geometry, numSpec: nat, lines: seq<Line>) returns (r: Result<Tables>)
    requires GeometryOk(g) && RowsFit(lines, numSpec)
    ensures r.Success? <==> Complete(g, lines)
    ensures r.Success? ==> r.value == Expected(g, numSpec, lines)
  {
    SizePositive(g);
    var size := Size(g);
    var abar := new real[size];
    var bea := new real[size];
    var dyedt := new real[size];
    var dabardt := new real[size];
    var dbeadt := new real[size];
    var enu := new real[size];
    var mf := new real[numSpec, size];
    var ok, pos := ReadPlanes(g, lines, abar, bea, dyedt, dabardt, dbeadt, enu, mf);
    if !ok {
      return Failure("Error reading from the NSE table");
    }
    var tab := CollectTables(g, numSpec, lines, abar, bea, dyedt, dabardt, dbeadt, enu, mf);
    return Success(tab);
  }

  /** Once every offset is filled, the arrays are the tables the file
      describes. */
  method CollectTables(g: Geometry, numSpec: nat, lines: seq<Line>,
                       abar: array<real>, bea: array<real>, dyedt: array<real>,
                       dabardt: array<real>, dbeadt: array<real>, enu: array<real>,
                       mf: array2<real>) returns (tab: Tables)
    requires GeometryOk(g) && RowsFit(lines, numSpec)
    requires Arrays(Size(g), numSpec, abar, bea, dyedt, dabardt, dbeadt, enu, mf)
    requires Filled(lines, Size(g), abar, bea, dyedt, dabardt, dbeadt, enu, mf)
    ensures Complete(g, lines) && tab == Expected(g, numSpec, lines)
  {
    tab := Tables(abar[..], bea[..], dyedt[..], dabardt[..], dbeadt[..], enu[..], SpeciesRows(mf));
    TablesFromEntries(g, numSpec, lines, tab);
  }
}
