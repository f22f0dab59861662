/**
 * Metric settings as the stores receive them: a Ruby hash from symbol or
 * string keys to arbitrary values, and the errors the stores raise.
 */
module StoreSettings {

  /** A Ruby hash key: a symbol (`:aggregation`) or a string (`"__metric_name"`). */
  datatype Atom = Sym(name: string) | Str(text: string)

  /** A setting's value: a Ruby symbol (`:sum`) or anything else (`true`, a string, ...). */
  datatype Setting = Symbol(name: string) | Other

  /** `metric_settings`: a hash whose keys may be symbols or strings. */
  type Settings = map<Atom, Setting>

  datatype StoreError =
    | NeedsAggregation          // "Metrics need a valid :aggregation key"
    | OnlyAggregation           // "Only :aggregation setting can be specified"
    | NoSettingsAllowed         // "CentralHashExample doesn't allow any metric_settings"
    | InvalidAggregationMode    // "Invalid Aggregation Mode: ..."
    | MalformedFile             // a metric file that no dictionary could have written
}
