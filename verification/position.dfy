/** The merge of gpsd reports in wialond/position.py (`_produce_positions`):
    SKY reports give the satellite count and the HDOP, TPV reports give the
    time and the position, and after every report the combined fix is
    emitted as soon as all parts are known.

    The gps session is the sequence of reports, each already parsed: the
    TPV time is the POSIX timestamp `strptime(...).timestamp()` computes. */
module Position {
  import opened Base

  /** The fields of a TPV report the client reads. */
  datatype Tpv = Tpv(time: real, lat: real, lon: real, speed: real, track: real, alt: real)

  /** A report from gpsd: a SKY report lists whether each satellite is used
      in the fix and may carry an HDOP; a TPV report carries a fix; reports
      of any other class are ignored. */
  datatype Report = Sky(used: seq<bool>, hdop: Option<real>) | TpvReport(tpv: Tpv) | OtherReport

  /** The four variables of the fold. The timestamp and the position are
      always assigned together from one TPV report, so they are kept as one
      optional TPV. */
  datatype Merged = Merged(last: Option<Tpv>, stats: Option<nat>, hdop: Option<real>)

  const Initial: Merged := Merged(None, None, None)

  /** `sum(1 for x in satellites if x['used'])` */
  function CountUsed(used: seq<bool>): (r: nat)
    ensures r == multiset(used)[true]
  {
    if |used| == 0 then 0
    else
      assert used == used[..|used| - 1] + [used[|used| - 1]];
      CountUsed(used[..|used| - 1]) + (if used[|used| - 1] then 1 else 0)
  }

  /** One turn of the loop, lines 18-27: a SKY report replaces the count and
      the HDOP (possibly with nothing), a TPV report replaces the time and
      position, any other report changes nothing. */
  function Absorb(m: Merged, r: Report): (n: Merged)
    ensures r.OtherReport? ==> n == m
    ensures r.Sky? ==> n.last == m.last && n.stats == Some(multiset(r.used)[true]) && n.hdop == r.hdop
    ensures r.TpvReport? ==> n.last == Some(r.tpv) && n.stats == m.stats && n.hdop == m.hdop
  {
    match r
    case Sky(used, hdop) => m.(stats := Some(CountUsed(used)), hdop := hdop)
    case TpvReport(tpv) => m.(last := Some(tpv))
    case OtherReport => m
  }

  /** Lines 28-29: the item emitted after a report, if every part is known. */
  function Emit(m: Merged): (r: Option<(real, Fix)>)
    ensures r.Some? <==> m.last.Some? && m.stats.Some? && m.hdop.Some?
    ensures r.Some? ==> r.value.0 == m.last.value.time
  {
    match (m.last, m.stats, m.hdop)
    case (Some(t), Some(stats), Some(hdop)) => Some((t.time, Fix(t.lat, t.lon, t.speed, t.track, t.alt, stats, hdop)))
    case _ => None
  }

  /** The state of the fold after a prefix of the session. */
  function MergeAll(rs: seq<Report>): Merged {
    if |rs| == 0 then Initial else Absorb(MergeAll(rs[..|rs| - 1]), rs[|rs| - 1])
  }

  /** The items the generator yields for a prefix of the session. */
  function Produce(rs: seq<Report>): (out: seq<(real, Fix)>)
    ensures |out| <= |rs|
  {
    if |rs| == 0 then []
    else
      var before := Produce(rs[..|rs| - 1]);
      match Emit(MergeAll(rs))
      case Some(item) => before + [item]
      case None => before
  }

  // ---------------------------------------------------------------------
  // Reference definition: the latest reports

  /** The latest TPV report of a prefix, if any. */
  function LatestTpv(rs: seq<Report>): Option<Tpv> {
    if |rs| == 0 then None
    else if rs[|rs| - 1].TpvReport? then Some(rs[|rs| - 1].tpv)
    else LatestTpv(rs[..|rs| - 1])
  }

  /** The latest SKY report of a prefix, if any. */
  function LatestSky(rs: seq<Report>): (r: Option<Report>)
    ensures r.Some? ==> r.value.Sky?
  {
    if |rs| == 0 then None
    else if rs[|rs| - 1].Sky? then Some(rs[|rs| - 1])
    else LatestSky(rs[..|rs| - 1])
  }

  /** What the latest reports say: the latest TPV, and the count and HDOP
      of the latest SKY. */
  function FromLatest(rs: seq<Report>): Merged {
    match LatestSky(rs)
    case None => Merged(LatestTpv(rs), None, None)
    case Some(sky) => Merged(LatestTpv(rs), Some(multiset(sky.used)[true]), sky.hdop)
  }

  /** The fold keeps exactly what the latest TPV and the latest SKY report
      say: nothing older survives a newer report of the same class. */
  lemma {:induction false} MergeIsLatest(rs: seq<Report>)
    ensures MergeAll(rs) == FromLatest(rs)
  {
    if |rs| > 0 {
      MergeIsLatest(rs[..|rs| - 1]);
    }
  }

  /** An item is emitted after a report exactly when some TPV has been seen
      and the latest SKY report carried an HDOP; it is the latest TPV with
      the latest SKY's count and HDOP. */
  lemma {:induction false} EmitAfter(rs: seq<Report>)
    ensures Emit(MergeAll(rs)).Some? <==>
              LatestTpv(rs).Some? && LatestSky(rs).Some? && LatestSky(rs).value.hdop.Some?
    ensures Emit(MergeAll(rs)).Some? ==>
              var t := LatestTpv(rs).value;
              var sky := LatestSky(rs).value;
              Emit(MergeAll(rs)).value
                == (t.time, Fix(t.lat, t.lon, t.speed, t.track, t.alt, multiset(sky.used)[true], sky.hdop.value))
  {
    MergeIsLatest(rs);
  }

  /** A SKY report without an HDOP suppresses output until a later SKY
      report brings one, whatever TPV reports arrive in between. */
  lemma {:induction false} SkyWithoutHdopSuppresses(rs: seq<Report>, used: seq<bool>, later: seq<Report>)
    requires forall i :: 0 <= i < |later| ==> !later[i].Sky?
    ensures Emit(MergeAll(rs + [Sky(used, None)] + later)) == None
  {
    var all := rs + [Sky(used, None)] + later;
    LatestSkyUnchanged(rs + [Sky(used, None)], later);
    EmitAfter(all);
  }

  /** Reports that are not SKY reports do not change the latest SKY. */
  lemma {:induction false} LatestSkyUnchanged(rs: seq<Report>, later: seq<Report>)
    requires forall i :: 0 <= i < |later| ==> !later[i].Sky?
    ensures LatestSky(rs + later) == LatestSky(rs)
  {
    if |later| > 0 {
      var all := rs + later;
      assert all[..|all| - 1] == rs + later[..|later| - 1];
      LatestSkyUnchanged(rs, later[..|later| - 1]);
    } else {
      assert rs + later == rs;
    }
  }

  /** A report of another class changes nothing, so it repeats the item the
      previous report emitted, if any. */
  lemma {:induction false} OtherReportRepeats(rs: seq<Report>)
    ensures MergeAll(rs + [OtherReport]) == MergeAll(rs)
    ensures Emit(MergeAll(rs + [OtherReport])) == Emit(MergeAll(rs))
  {
    assert (rs + [OtherReport])[..|rs|] == rs;
  }

  /** Nothing is emitted before the first TPV report. */
  lemma {:induction false} NothingBeforeTpv(rs: seq<Report>)
    requires forall i :: 0 <= i < |rs| ==> !rs[i].TpvReport?
    ensures Produce(rs) == []
  {
    if |rs| > 0 {
      NothingBeforeTpv(rs[..|rs| - 1]);
      NoTpvNoLatest(rs);
    }
  }

  lemma {:induction false} NoTpvNoLatest(rs: seq<Report>)
    requires forall i :: 0 <= i < |rs| ==> !rs[i].TpvReport?
    ensures MergeAll(rs).last == None
  {
    if |rs| > 0 {
      NoTpvNoLatest(rs[..|rs| - 1]);
    }
  }

  /** Nothing is emitted before the first SKY report carrying an HDOP. */
  lemma {:induction false} NothingBeforeHdop(rs: seq<Report>)
    requires forall i :: 0 <= i < |rs| ==> !(rs[i].Sky? && rs[i].hdop.Some?)
    ensures Produce(rs) == []
  {
    if |rs| > 0 {
      NothingBeforeHdop(rs[..|rs| - 1]);
      NoHdopNoLatest(rs);
    }
  }

  lemma {:induction false} NoHdopNoLatest(rs: seq<Report>)
    requires forall i :: 0 <= i < |rs| ==> !(rs[i].Sky? && rs[i].hdop.Some?)
    ensures MergeAll(rs).hdop == None
  {
    if |rs| > 0 {
      NoHdopNoLatest(rs[..|rs| - 1]);
    }
  }
}
