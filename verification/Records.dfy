/** The rows of the database tables and the settings the worker reads. */
module Records {
  import opened Basics

  datatype Status = Pending | Processing | Completed | Failed | MaxRetriesExceeded

  /** A row of sync_tasks; its id is its position in the table. */
  datatype Task = Task(
    optOut: nat,
    integration: nat,
    status: Status,
    retryCount: nat,
    maxRetries: nat,
    lastError: Option<string>,
    nextRetryAt: int
  )

  /** A row of failed_syncs. */
  datatype FailedSync = FailedSync(task: nat, error: string, retryCount: nat, maxRetries: nat)

  /** A row of optouts; its id is its position in the table. */
  datatype OptOut = OptOut(identifier: string, channel: string)

  datatype Kind = HubSpot | Salesforce | GoHighLevel | GenericWebhook | Unsupported

  /** A row of integrations. `account` stands for the remote CRM account its
      instance URL and token reach; two integrations may share one. */
  datatype Integration = Integration(
    kind: Kind,
    isActive: bool,
    token: Option<string>,
    url: Option<string>,
    account: nat
  )

  datatype Settings = Settings(strict: bool, backoffFactor: nat)

  const DEFAULT_MAX_RETRIES: nat := 5

  predicate Terminal(t: Task) {
    t.status == Completed || t.status == MaxRetriesExceeded
  }
}
