/**
 * One row of an uploaded equipment CSV, as the dashboard receives it in JSON, and the
 * way the dashboard reads each field. Every numeric field is already passed through
 * `parseFloat`: `None` stands for a missing, null or unparseable value.
 */
module Equipment {
  import opened Wrappers

  /** Columns "Equipment Name", "Type", "Flowrate", "Temperature" and "Pressure". */
  datatype Row = Row(
    name: Option<string>,
    kind: Option<string>,
    flowrate: Option<real>,
    temperature: Option<real>,
    pressure: Option<real>)

  /** Pressure above which a unit counts as critical, in bar. */
  const CriticalPressure: real := 8.0

  /** Temperature assumed when a row has none, in degrees Celsius. */
  const DefaultTemperature: real := 25.0

  /** Category label used when a row has no type. */
  const OtherType: string := "Other"

  /** `item['Equipment Name'] || ""`. */
  function NameOf(r: Row): (n: string)
    ensures r.name.None? ==> n == ""
    ensures r.name.Some? ==> n == r.name.value
  {
    r.name.GetOr("")
  }

  /** `item.Type || 'Other'`: a missing or empty type is grouped as "Other". */
  function TypeOf(r: Row): (t: string)
    ensures t != ""
    ensures t == OtherType <==> r.kind.None? || r.kind.value == "" || r.kind.value == OtherType
    ensures r.kind.Some? && r.kind.value != "" ==> t == r.kind.value
  {
    if r.kind.None? || r.kind.value == "" then OtherType else r.kind.value
  }

  /** `parseFloat(item.Temperature || 25)`: a missing or zero temperature reads as 25. */
  function TemperatureOf(r: Row): (t: real)
    ensures t != 0.0
    ensures r.temperature.None? ==> t == DefaultTemperature
    ensures r.temperature == Some(0.0) ==> t == DefaultTemperature
    ensures r.temperature.Some? && r.temperature.value != 0.0 ==> t == r.temperature.value
  {
    if r.temperature.None? || r.temperature.value == 0.0 then DefaultTemperature
    else r.temperature.value
  }

  /** `parseFloat(r.Pressure || 0)`: a missing pressure reads as 0. */
  function PressureOf(r: Row): (p: real)
    ensures r.pressure.None? ==> p == 0.0
    ensures r.pressure.Some? ==> p == r.pressure.value
  {
    r.pressure.GetOr(0.0)
  }

  /** `parseFloat(r.Flowrate) || 0`: a missing or unparseable flow rate contributes 0. */
  function FlowOf(r: Row): (f: real)
    ensures r.flowrate.None? ==> f == 0.0
    ensures r.flowrate.Some? ==> f == r.flowrate.value
  {
    r.flowrate.GetOr(0.0)
  }

  /** A unit whose pressure exceeds the critical threshold; a missing pressure is never critical. */
  function IsCritical(r: Row): (b: bool)
    ensures b <==> r.pressure.Some? && r.pressure.value > CriticalPressure
  {
    PressureOf(r) > CriticalPressure
  }
}
