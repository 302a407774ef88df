/** The database the service mutates, with the remote accounts its dispatches reach. */
module Database {
  import opened Records
  import opened Crm
  import opened Queue

  class Store {
    var optOuts: seq<OptOut>
    var integrations: map<nat, Integration>
    var nextIntegration: nat
    var tasks: seq<Task>
    var failedSyncs: seq<FailedSync>
    var accounts: seq<Account>

    /** The value of all tables and accounts. */
    function State(): System
      reads this
    {
      System(optOuts, integrations, nextIntegration, tasks, failedSyncs, accounts)
    }

    constructor (accounts: seq<Account>)
      ensures State() == System([], map[], 0, [], [], accounts)
      ensures WellFormed(State())
    {
      optOuts, integrations, nextIntegration, tasks, failedSyncs := [], map[], 0, [], [];
      this.accounts := accounts;
    }
  }
}
