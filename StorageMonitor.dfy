/**
 * Cold-storage monitoring: the temperature and humidity bands of a sensor
 * reading, the unit status colour table and the per-unit map of latest
 * readings that each completed fetch updates.
 */
module StorageMonitor {
  import opened Wrappers

  /** A sensor_readings row; the card uses the unit, temperature and humidity. */
  datatype SensorReading = SensorReading(
    storageUnitId: string,
    temperatureCelsius: real,
    humidityPercent: real,
    weightKg: Option<real>,
    recordedAtMs: Option<int>)

  // ---------------------------------------------------------------------------
  // Temperature and humidity bands

  /** The badge a temperature gets: a colour class and a status text. */
  datatype TemperatureBand = TooCold | TemperatureOptimal | TooWarm
  {
    function Color(): string
    {
      match this
      case TooCold => "text-info"
      case TemperatureOptimal => "text-success"
      case TooWarm => "text-destructive"
    }

    function Status(): string
    {
      match this
      case TooCold => "Too Cold"
      case TemperatureOptimal => "Optimal"
      case TooWarm => "Too Warm"
    }
  }

  /** Below 2 degrees is too cold, above 8 too warm; 2 to 8 inclusive is optimal. */
  function TemperatureStatus(temp: real): (band: TemperatureBand)
    ensures band == TooCold <==> temp < 2.0
    ensures band == TooWarm <==> temp > 8.0
    ensures band == TemperatureOptimal <==> 2.0 <= temp <= 8.0
  {
    if temp < 2.0 then TooCold
    else if temp > 8.0 then TooWarm
    else TemperatureOptimal
  }

  /** The position of a band on the temperature scale. */
  function TemperatureRank(band: TemperatureBand): int
  {
    match band
    case TooCold => 0
    case TemperatureOptimal => 1
    case TooWarm => 2
  }

  /** A warmer reading never lands in a colder band, and the three bands look different. */
  lemma TemperatureBandsOrdered(t: real, u: real)
    requires t <= u
    ensures TemperatureRank(TemperatureStatus(t)) <= TemperatureRank(TemperatureStatus(u))
    ensures TemperatureStatus(t) != TemperatureStatus(u) ==>
      TemperatureStatus(t).Color() != TemperatureStatus(u).Color()
      && TemperatureStatus(t).Status() != TemperatureStatus(u).Status()
  {
  }

  /** The badge a humidity gets; both out-of-range bands share the warning colour. */
  datatype HumidityBand = Low | HumidityOptimal | High
  {
    function Color(): string
    {
      match this
      case Low => "text-warning"
      case HumidityOptimal => "text-success"
      case High => "text-warning"
    }

    function Status(): string
    {
      match this
      case Low => "Low"
      case HumidityOptimal => "Optimal"
      case High => "High"
    }
  }

  /** Below 85 % is low, above 95 % high; 85 to 95 inclusive is optimal. */
  function HumidityStatus(humidity: real): (band: HumidityBand)
    ensures band == Low <==> humidity < 85.0
    ensures band == High <==> humidity > 95.0
    ensures band == HumidityOptimal <==> 85.0 <= humidity <= 95.0
    ensures band.Color() == "text-warning" <==> !(85.0 <= humidity <= 95.0)
    ensures band.Color() == "text-success" <==> 85.0 <= humidity <= 95.0
  {
    if humidity < 85.0 then Low
    else if humidity > 95.0 then High
    else HumidityOptimal
  }

  // ---------------------------------------------------------------------------
  // Unit status colour table

  /** The storage_status enumeration of the database schema. */
  datatype StorageStatus = Active | Inactive | Maintenance
  {
    function Name(): string
    {
      match this
      case Active => "active"
      case Inactive => "inactive"
      case Maintenance => "maintenance"
    }
  }

  /** The storage_status values in the schema's order. */
  const StorageStatusNames: seq<string> := ["active", "inactive", "maintenance"]

  const Muted: string := "bg-muted"

  /** The unit badge colour; any string that names no storage status is muted. */
  function StatusColor(status: string): (c: string)
    ensures c == Muted <==> status !in StorageStatusNames
  {
    match status
    case "active" => "bg-success text-white"
    case "maintenance" => "bg-warning text-white"
    case "inactive" => "bg-muted text-muted-foreground"
    case _ => Muted
  }

  /** Each storage status has a colour of its own, and its name is a schema value. */
  lemma StatusColorsDistinct(s: StorageStatus, t: StorageStatus)
    ensures s.Name() in StorageStatusNames
    ensures s != t ==> StatusColor(s.Name()) != StatusColor(t.Name())
  {
    match s
    case Active =>
    case Inactive =>
    case Maintenance =>
  }

  // ---------------------------------------------------------------------------
  // Latest reading per unit

  /** What the query for one unit's newest reading gives back. */
  datatype FetchOutcome = FetchFailed | NoReading | Fetched(reading: SensorReading)

  /** The map of latest readings after one fetch for `unitId` completes. */
  function Stored(prev: map<string, SensorReading>, unitId: string, outcome: FetchOutcome)
    : (next: map<string, SensorReading>)
    ensures outcome.Fetched? ==> unitId in next && next[unitId] == outcome.reading
    ensures !outcome.Fetched? ==> next == prev
    ensures next.Keys == if outcome.Fetched? then prev.Keys + {unitId} else prev.Keys
    ensures forall u :: u != unitId && u in prev ==> next[u] == prev[u]
  {
    if outcome.Fetched? then prev[unitId := outcome.reading] else prev
  }

  /**
   * Fetches for different units may complete in either order: the resulting
   * map is the same.
   */
  lemma StoresCommute(m: map<string, SensorReading>, u: string, a: FetchOutcome, v: string, b: FetchOutcome)
    requires u != v
    ensures Stored(Stored(m, u, a), v, b) == Stored(Stored(m, v, b), u, a)
  {
    var left := Stored(Stored(m, u, a), v, b);
    var right := Stored(Stored(m, v, b), u, a);
    assert left.Keys == right.Keys;
    forall w | w in left
      ensures left[w] == right[w]
    {
    }
  }

  /** The two bands a unit card shows, or none when the unit has no reading. */
  function UnitStatuses(readings: map<string, SensorReading>, unitId: string)
    : (r: Option<(TemperatureBand, HumidityBand)>)
    ensures r.None? <==> unitId !in readings
    ensures r.Some? ==>
      r.value == (TemperatureStatus(readings[unitId].temperatureCelsius),
                  HumidityStatus(readings[unitId].humidityPercent))
  {
    if unitId in readings then
      var reading := readings[unitId];
      Some((TemperatureStatus(reading.temperatureCelsius), HumidityStatus(reading.humidityPercent)))
    else None
  }

  /** The dashboard's store of latest readings, keyed by storage unit id. */
  class SensorBoard
  {
    var readings: map<string, SensorReading>

    constructor ()
      ensures readings == map[]
    {
      readings := map[];
    }

    /**
     * Records the outcome of one latest-reading fetch: a returned row replaces
     * the unit's entry; an error or an empty answer changes nothing.
     */
    method StoreLatest(unitId: string, outcome: FetchOutcome)
      modifies this
      ensures readings == Stored(old(readings), unitId, outcome)
      ensures forall u :: u != unitId ==>
        (u in readings <==> u in old(readings)) && (u in readings ==> readings[u] == old(readings)[u])
    {
      if outcome.Fetched? {
        readings := readings[unitId := outcome.reading];
      }
    }
  }
}
