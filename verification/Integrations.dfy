/** The administration of integrations. */
module Integrations {
  import opened Basics
  import opened Records
  import opened Crm
  import opened Queue
  import opened Registry
  import opened Database

  /** What no operation on integrations changes. */
  function OtherTables(s: System): (seq<OptOut>, seq<Task>, seq<FailedSync>, seq<Account>) {
    (s.optOuts, s.tasks, s.failedSyncs, s.accounts)
  }

  /** The columns of an integration other than its flag. */
  function WithoutFlag(g: Integration): (Kind, Option<string>, Option<string>, nat) {
    (g.kind, g.token, g.url, g.account)
  }

  method CreateIntegration(db: Store, g: Integration) returns (id: nat)
    requires WellFormed(db.State()) && g.account < |db.accounts|
    modifies db
    ensures db.State() == Register(old(db.State()), g)
    ensures id == old(db.nextIntegration) && id !in old(db.integrations) && db.nextIntegration == id + 1
    ensures id in db.integrations && db.integrations[id] == g && db.integrations - {id} == old(db.integrations)
    ensures OtherTables(db.State()) == old(OtherTables(db.State()))
  {
    id := db.nextIntegration;
    db.integrations := db.integrations[id := g];
    db.nextIntegration := id + 1;
  }

  /** Sets the active flag; false stands for the 404 answer. */
  method UpdateIntegration(db: Store, id: nat, active: bool) returns (found: bool)
    requires WellFormed(db.State())
    modifies db
    ensures found == (id in old(db.integrations))
    ensures db.State() == Toggle(old(db.State()), id, active)
    ensures found ==> id in db.integrations && db.integrations[id].isActive == active
    ensures found ==> id in db.integrations && WithoutFlag(db.integrations[id]) == WithoutFlag(old(db.integrations)[id])
    ensures db.integrations - {id} == old(db.integrations) - {id} && (!found ==> id !in db.integrations)
    ensures db.nextIntegration == old(db.nextIntegration) && OtherTables(db.State()) == old(OtherTables(db.State()))
  {
    found := id in db.integrations;
    if found {
      db.integrations := db.integrations[id := db.integrations[id].(isActive := active)];
    }
  }

  method DeleteIntegration(db: Store, id: nat) returns (found: bool)
    requires WellFormed(db.State())
    modifies db
    ensures found == (id in old(db.integrations))
    ensures db.State() == Delete(old(db.State()), id)
    ensures id !in db.integrations && db.integrations == old(db.integrations) - {id}
    ensures db.nextIntegration == old(db.nextIntegration) && OtherTables(db.State()) == old(OtherTables(db.State()))
  {
    found := id in db.integrations;
    if found {
      db.integrations := db.integrations - {id};
    }
  }
}
