/** Values shared by every part of the exporter model. */
module Common {

  /** Python's `None` or a value. */
  datatype Option<+T> = None | Some(value: T)

  /** One label of a series: its name and its value. A project label whose
      resolution gave up holds `None`, as the exporter passes it on. */
  datatype Label = Label(name: string, value: Option<string>)

  /** The label values of one series, in label order: the key of a series
      inside its gauge and the tuple the stale-series tracker remembers. */
  type LabelValues = seq<Option<string>>

  /** `labels.keys()` of an ordered label set. */
  function Names(labels: seq<Label>): seq<string>
  {
    seq(|labels|, i requires 0 <= i < |labels| => labels[i].name)
  }

  /** `labels.values()` of an ordered label set, as passed positionally to `.labels()`. */
  function Values(labels: seq<Label>): LabelValues
  {
    seq(|labels|, i requires 0 <= i < |labels| => labels[i].value)
  }
}
