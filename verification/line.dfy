/** The record shapes handed to and returned by the cache: a spectral line
    and its two energy levels. Values, not objects: a line's two levels can
    never alias each other. */
module Lines {

  datatype Level = Level(energy: real, statisticalWeight: real, quantumNumbers: string)

  datatype Line = Line(
    species: string,
    frequency: real,
    errFrequency: real,
    einsteinCoefficient: real,
    upperLevel: Level,
    lowerLevel: Level,
    origin: string,    // catalog that first defined the transition
    dbsource: string,  // catalog the line was last read from
    prev: string,      // dbsource of the stored row this record came from
    date: string)

  /** A freshly constructed level. */
  function NewLevel(): (lv: Level)
    ensures lv.energy == 0.0 && lv.statisticalWeight == 0.0
    ensures lv.quantumNumbers == ""
  {
    Level(0.0, 0.0, "")
  }

  /** A freshly constructed line: every text field empty, every number zero,
      and two fresh levels. */
  function NewLine(): (l: Line)
    ensures l.species == "" && l.origin == "" && l.dbsource == "" && l.prev == "" && l.date == ""
    ensures l.frequency == 0.0 && l.errFrequency == 0.0 && l.einsteinCoefficient == 0.0
    ensures l.upperLevel == NewLevel() && l.lowerLevel == NewLevel()
  {
    Line("", 0.0, 0.0, 0.0, NewLevel(), NewLevel(), "", "", "", "")
  }

  /** Setting one level of a line leaves the other one as it was. */
  lemma LevelsIndependent(l: Line, lv: Level)
    ensures l.(upperLevel := lv).lowerLevel == l.lowerLevel
    ensures l.(lowerLevel := lv).upperLevel == l.upperLevel
  {
  }

  /** `prev` and `dbsource` are separate fields: setting one keeps the other. */
  lemma SourcesIndependent(l: Line, s: string)
    ensures l.(prev := s).dbsource == l.dbsource
    ensures l.(dbsource := s).prev == l.prev
  {
  }
}
