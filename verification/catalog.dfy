/** `get_mysql_tables`: the source's base tables, in the order the source
    lists them, kept when they are on the allow-list. The inventory script
    allows a fixed list; the incremental script allows every table the
    schema file declares.
 */
module Catalog {
  import opened Seqs

  const InventoryAllowList: set<string> := {"backup_log", "daily_log", "servers_temp"}

  /** `[t for t in base_tables if t in allowed]`: a subsequence of the
      source's list holding exactly its allowed tables. */
  function Discover(baseTables: seq<string>, allowed: set<string>): (r: seq<string>)
    ensures Subsequence(r, baseTables)
    ensures forall t :: t in r <==> t in baseTables && t in allowed
  {
    Filter(baseTables, t => t in allowed)
  }

  /** Every allowed table is discovered as often as the source lists it,
      and nothing else is discovered at all. */
  lemma {:induction false} DiscoverCounts(baseTables: seq<string>, allowed: set<string>)
    ensures forall t :: multiset(Discover(baseTables, allowed))[t]
                          == if t in allowed then multiset(baseTables)[t] else 0
  {
    FilterCounts(baseTables, t => t in allowed);
  }
}
