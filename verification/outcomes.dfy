/** Failure-carrying results shared by every stage of the pipeline.

    The scripts signal every failure by raising a Python exception that is
    logged and re-raised; here each exception the core can raise is a case of
    `Failure`, and a stage that can raise returns a `Result`.
 */
module Outcomes {

  datatype Option<+T> = None | Some(value: T)

  /** The exceptions the pipeline can raise, one case per origin. */
  datatype Failure =
    | DiscoveryFailed                 // the `SHOW FULL TABLES` query or its connection failed
    | ExtractionFailed(table: string) // `pd.read_sql` raised, or the clock could not be stepped back
    | SchemaNotFound(table: string)   // `ValueError` from `get_schema_from_config`
    | MalformedSchema(table: string)  // `KeyError` on a field object without "name" or "type"
    | LoadFailed(table: string)       // `job.result()` raised
    | RowCountFailed(table: string)   // `get_table` raised after a successful load
    | MalformedCredentials(line: nat) // `ValueError` unpacking a `KEY=VALUE` line

  /** A failure raised while working on `table`. */
  predicate AboutTable(f: Failure, table: string)
  {
    f in {ExtractionFailed(table), SchemaNotFound(table), MalformedSchema(table), LoadFailed(table), RowCountFailed(table)}
  }

  datatype Result<+T> = Ok(value: T) | Err(failure: Failure)
}
