/** The value model shared by readers, writer and renderer (include/metric.h). */
module Metrics {
  import opened CStrings

  const MAX_DS: nat := 4

  /** The C array double values[METRIC_MAX_DS]. */
  type Values = v: seq<real> | |v| == 4 witness [0.0, 0.0, 0.0, 0.0]

  /** One emitted metric; an absent instance is the source's NULL. */
  datatype Metric = Metric(plugin: string, pluginInstance: Option<string>,
                           typ: string, typeInstance: Option<string>,
                           dsCount: int, values: Values)

  /** The fixed-size deep copy kept in a snapshot; NULL instances collapse to "". */
  datatype SnapMetric = SnapMetric(plugin: string, pluginInstance: string,
                                   typ: string, typeInstance: string,
                                   values: seq<real>)

  function OrEmpty(s: Option<string>): string {
    match s case None => "" case Some(v) => v
  }

  /** Values carried by a metric once its count is clamped to the array. */
  function LiveValues(m: Metric): (v: seq<real>)
    ensures |v| <= MAX_DS && v <= m.values
    ensures 0 <= m.dsCount <= MAX_DS ==> |v| == m.dsCount
  {
    if m.dsCount <= 0 then []
    else if m.dsCount > MAX_DS then m.values
    else m.values[..m.dsCount]
  }

  function CopyMetric(m: Metric): SnapMetric {
    SnapMetric(Truncated(m.plugin, 48), Truncated(OrEmpty(m.pluginInstance), 256),
               Truncated(m.typ, 48), Truncated(OrEmpty(m.typeInstance), 128),
               LiveValues(m))
  }

  /** The copy of a metric whose strings fit loses nothing but the difference between an
      absent and an empty instance; longer strings keep their beginning. */
  lemma CopyKeepsWhatFits(m: Metric)
    ensures var c := CopyMetric(m);
            && c.plugin <= m.plugin && c.typ <= m.typ
            && c.pluginInstance <= OrEmpty(m.pluginInstance) && c.typeInstance <= OrEmpty(m.typeInstance)
            && (|m.plugin| < 48 ==> c.plugin == m.plugin) && (|m.typ| < 48 ==> c.typ == m.typ)
            && (|OrEmpty(m.pluginInstance)| < 256 ==> c.pluginInstance == OrEmpty(m.pluginInstance))
            && (|OrEmpty(m.typeInstance)| < 128 ==> c.typeInstance == OrEmpty(m.typeInstance))
            && |c.values| == (if m.dsCount < 0 then 0 else if m.dsCount > MAX_DS then MAX_DS else m.dsCount)
            && forall i :: 0 <= i < |c.values| ==> c.values[i] == m.values[i]
  {
  }
}
