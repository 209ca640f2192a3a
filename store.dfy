/** The browser's key-value storage, reduced to the three entries the app
    keeps in it. Each entry holds the value that the stored text would parse
    to, or None when the key is absent. */
module Storage {
  import opened Wrappers
  import opened Dates
  import opened Quests

  /** A ledger maps each logical day to the completion percentage recorded
      for it. */
  type Ledger = map<Date, real>

  class Store {
    /** The entry under 'daily-quests-data-v2': the saved quest list. */
    var quests: Option<seq<Quest>>
    /** The entry under 'daily-quests-last-visit': the last day the app saw as current. */
    var lastVisit: Option<Date>
    /** The entry under 'daily-quests-history': the history ledger. */
    var history: Option<Ledger>

    constructor (quests: Option<seq<Quest>>, lastVisit: Option<Date>, history: Option<Ledger>)
      ensures this.quests == quests && this.lastVisit == lastVisit && this.history == history
    {
      this.quests := quests;
      this.lastVisit := lastVisit;
      this.history := history;
    }
  }
}
