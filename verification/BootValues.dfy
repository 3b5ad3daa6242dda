/** Reading and writing configuration parameters while the configuration lives in a database: writes go to the
    database at once, reads keep answering what the database held at boot. */
module BootValues {

  datatype ParameterId = ParameterId(moduleId: string, implementation: string, parameter: string)

  /** A stored text, by what it parses to as its parameter's type. */
  datatype Row = Readable(value: int) | Garbled

  type Storage = map<ParameterId, Row>

  datatype Response = Found(value: int) | NotFound | Failed

  datatype SetStatus = Rejected | RebootRequired

  /** What a working database answers. */
  function ReadRow(storage: Storage, id: ParameterId): Response {
    if id !in storage then NotFound
    else
      match storage[id]
      case Readable(v) => Found(v)
      case Garbled => Failed
  }

  datatype State = State(storage: Storage, cache: map<ParameterId, Response>)

  function Booted(storage: Storage): State {
    State(storage, map[])
  }

  /** One set call: whether the database could be read and written at that moment is part of it. */
  datatype Setting = Setting(id: ParameterId, row: Row, canRead: bool, canWrite: bool)

  class ManagerConfig {
    const parameters: set<ParameterId>
    var storage: Storage
    var cache: map<ParameterId, Response>

    constructor (parameters: set<ParameterId>, storage: Storage)
      ensures this.parameters == parameters && Now() == Booted(storage)
    {
      this.parameters := parameters;
      this.storage := storage;
      cache := map[];
    }

    function Now(): State
      reads this
    {
      State(storage, cache)
    }

    method GetConfigurationParameter(id: ParameterId, works: bool) returns (r: Response)
      ensures r == if works then ReadRow(storage, id) else Failed
    {
      if !works {
        return Failed;
      }
      if id !in storage {
        return NotFound;
      }
      match storage[id] {
        case Readable(v) => return Found(v);
        case Garbled => return Failed;
      }
    }

    method SetConfigValue(s: Setting) returns (status: SetStatus)
      modifies this
      ensures status == RebootRequired <==> s.id in parameters && s.canWrite
      ensures storage == if s.id in parameters && s.canWrite then old(storage)[s.id := s.row] else old(storage)
      ensures Now() == After(parameters, old(Now()), s)
    {
      if s.id !in parameters {
        return Rejected;
      }
      var cachedValue := GetConfigurationParameter(s.id, s.canRead);
      if !s.canWrite {
        return Rejected;
      }
      storage := storage[s.id := s.row];
      if s.id !in cache {
        cache := cache[s.id := cachedValue];
      }
      return RebootRequired;
    }

    method GetConfigValue(id: ParameterId, works: bool) returns (r: Response)
      ensures r == Answer(Now(), id, works)
    {
      if id in cache {
        return cache[id];
      }
      r := GetConfigurationParameter(id, works);
    }
  }

  predicate Accepted(parameters: set<ParameterId>, s: Setting) {
    s.id in parameters && s.canWrite
  }

  function After(parameters: set<ParameterId>, t: State, s: Setting): State {
    if !Accepted(parameters, s) then t
    else
      State(t.storage[s.id := s.row],
            if s.id in t.cache then t.cache
            else t.cache[s.id := if s.canRead then ReadRow(t.storage, s.id) else Failed])
  }

  function Answer(t: State, id: ParameterId, works: bool): Response {
    if id in t.cache then t.cache[id]
    else if works then ReadRow(t.storage, id)
    else Failed
  }

  // ----- whole runs -----

  function AfterAll(parameters: set<ParameterId>, t: State, settings: seq<Setting>): State
    decreases |settings|
  {
    if settings == [] then t
    else After(parameters, AfterAll(parameters, t, settings[..|settings| - 1]), settings[|settings| - 1])
  }

  /** The accepted settings of one parameter, in order. */
  function AcceptedFor(parameters: set<ParameterId>, settings: seq<Setting>, id: ParameterId): seq<Setting>
    decreases |settings|
  {
    if settings == [] then []
    else
      var last := settings[|settings| - 1];
      AcceptedFor(parameters, settings[..|settings| - 1], id)
      + if last.id == id && id in parameters && last.canWrite then [last] else []
  }

  /** Until the next boot a parameter reads as it did at boot, however often it was set in between; storage holds
      what was accepted last. The one exception: if the database could not be read when the first setting was
      accepted, the failure is what gets remembered. */
  lemma {:induction false} ReadsKeepBootValues(parameters: set<ParameterId>, boot: Storage, settings: seq<Setting>,
                                               id: ParameterId, works: bool)
    ensures var t := AfterAll(parameters, Booted(boot), settings);
            var accepted := AcceptedFor(parameters, settings, id);
            && Answer(t, id, works)
               == (if (if accepted == [] then works else accepted[0].canRead) then ReadRow(boot, id) else Failed)
            && (accepted == [] ==> id !in t.cache && (id in t.storage <==> id in boot)
                                   && (id in boot ==> t.storage[id] == boot[id]))
            && (accepted != [] ==> id in t.cache && id in t.storage
                                   && t.storage[id] == accepted[|accepted| - 1].row)
    decreases |settings|
  {
    if settings != [] {
      ReadsKeepBootValues(parameters, boot, settings[..|settings| - 1], id, works);
    }
  }

  /** What a row reads as; without one there is nothing to find. */
  ghost predicate ReadsAs(row: Row, r: Response) {
    (row.Readable? ==> r == Found(row.value)) && (row.Garbled? ==> r == Failed)
  }

  /** After the next boot it reads as last accepted, or as before if nothing was. */
  lemma NextBootReadsLastAccepted(parameters: set<ParameterId>, boot: Storage, settings: seq<Setting>, id: ParameterId)
    ensures var t := AfterAll(parameters, Booted(boot), settings);
            var accepted := AcceptedFor(parameters, settings, id);
            var answer := Answer(Booted(t.storage), id, true);
            && (accepted != [] ==> ReadsAs(accepted[|accepted| - 1].row, answer))
            && (accepted == [] && id in boot ==> ReadsAs(boot[id], answer))
            && (accepted == [] && id !in boot ==> answer == NotFound)
  {
    ReadsKeepBootValues(parameters, boot, settings, id, true);
  }
}
