/** The blocklist: links that must not be downloaded again, each with the
    reason it was added and when. The table is a map from row id to row,
    changed in place by each operation. */
module Blocklist {
  import opened Common
  import Tables

  /** `blocklist_reasons`: the reason text of each reason id. */
  function ReasonText(reasonId: int): (r: Option<string>)
    ensures r.Some? <==> 1 <= reasonId <= 4
  {
    if reasonId == 1 then Some("Link broken")
    else if reasonId == 2 then Some("Source not supported")
    else if reasonId == 3 then Some("No supported or working links")
    else if reasonId == 4 then Some("Added by user")
    else None
  }

  /** The reason id of each `BlocklistReason`. */
  function ReasonId(reason: BlocklistReason): (id: int)
    ensures ReasonText(id).Some?
  {
    match reason
    case LinkBrokenReason => 1
    case SourceNotSupported => 2
    case NoWorkingLinksReason => 3
    case AddedByUser => 4
  }

  /** A row of the `blocklist` table. */
  datatype Row = Row(link: string, reasonId: int, addedAt: int)

  /** A row joined with its reason text, as the queries return it. */
  datatype Entry = Entry(id: int, link: string, reason: string, addedAt: int)

  /** A row joined with the text of its reason. */
  function Joined(id: int, row: Row): Entry
    requires ReasonText(row.reasonId).Some?
  {
    Entry(id, row.link, ReasonText(row.reasonId).value, row.addedAt)
  }

  /** The rows of the table joined with their reasons, by id from high to
      low. */
  method Listing(m: map<int, Row>) returns (entries: seq<Entry>)
    requires forall id | id in m :: ReasonText(m[id].reasonId).Some?
    ensures |entries| == |m.Keys|
    ensures forall i, j | 0 <= i < j < |entries| :: entries[i].id > entries[j].id
    ensures forall i | 0 <= i < |entries| :: entries[i].id in m && entries[i] == Joined(entries[i].id, m[entries[i].id])
    ensures forall id | id in m :: exists i | 0 <= i < |entries| :: entries[i].id == id
  {
    var ids := Tables.Descending(m.Keys);
    forall i | 0 <= i < |ids| ensures ids[i] in m {
      assert ids[i] in ids;
    }
    entries := [];
    var n := 0;
    while n < |ids|
      invariant 0 <= n <= |ids|
      invariant |entries| == n
      invariant forall i | 0 <= i < n :: entries[i] == Joined(ids[i], m[ids[i]])
    {
      entries := entries + [Joined(ids[n], m[ids[n]])];
      n := n + 1;
    }
    forall id | id in m ensures exists i | 0 <= i < |entries| :: entries[i].id == id {
      var i :| 0 <= i < |ids| && ids[i] == id;
      assert entries[i].id == id;
    }
  }

  class BlocklistTable {
    var rows: map<int, Row>

    /** Row ids are positive, every row's reason exists (the foreign key)
        and no link is in two rows (the unique constraint). */
    ghost predicate Valid()
      reads this
    {
      && (forall id | id in rows :: id > 0 && ReasonText(rows[id].reasonId).Some?)
      && (forall i, j | i in rows && j in rows && rows[i].link == rows[j].link :: i == j)
    }

    constructor()
      ensures Valid() && rows == map[]
    {
      rows := map[];
    }

    /** The joined form of a row. */
    function EntryOf(id: int): (e: Entry)
      reads this
      requires Valid() && id in rows
      ensures e.id == id && e.link == rows[id].link && e.addedAt == rows[id].addedAt
      ensures Some(e.reason) == ReasonText(rows[id].reasonId)
    {
      Joined(id, rows[id])
    }

    /** `blocklist_contains`: some row holds the link. */
    predicate Contains(link: string)
      reads this
    {
      exists id | id in rows :: rows[id].link == link
    }

    /** `get_blocklist_entry`: the entry with that id, or
        `BlocklistEntryNotFound`. */
    method GetEntry(id: int) returns (r: Result<Entry>)
      requires Valid()
      ensures r.Ok? <==> id in rows
      ensures r.Ok? ==> r.value == EntryOf(id)
      ensures r.Err? ==> r.error == BlocklistEntryNotFound
    {
      if id in rows {
        return Ok(EntryOf(id));
      }
      return Err(BlocklistEntryNotFound);
    }

    /** `add_to_blocklist`: a link already on the blocklist gives its
        existing entry and adds nothing; otherwise a row with the reason and
        the rounded current time is inserted, unless the reason does not
        exist (`InvalidKeyValue`). */
    method Add(link: string, reasonId: int, now: int) returns (r: Result<Entry>)
      requires Valid()
      modifies this
      ensures Valid()
      ensures Contains(link) <==> (old(Contains(link)) || r.Ok?)
      ensures old(Contains(link)) ==>
        rows == old(rows) && r.Ok? && r.value.id in rows && rows[r.value.id].link == link
        && r.value == EntryOf(r.value.id)
      ensures !old(Contains(link)) && ReasonText(reasonId).None? ==>
        rows == old(rows) && r == Err(InvalidKeyValue)
      ensures !old(Contains(link)) && ReasonText(reasonId).Some? ==>
        r.Ok? && r.value.id !in old(rows) && rows == old(rows)[r.value.id := Row(link, reasonId, now)]
        && r.value == EntryOf(r.value.id)
    {
      if id :| id in rows && rows[id].link == link {
        return Ok(EntryOf(id));
      }
      if ReasonText(reasonId).None? {
        return Err(InvalidKeyValue);
      }
      var id := Tables.NextRowId(rows.Keys);
      rows := rows[id := Row(link, reasonId, now)];
      return Ok(EntryOf(id));
    }

    /** `delete_blocklist_entry`: removes the row, or raises
        `BlocklistEntryNotFound` when there is none. */
    method DeleteEntry(id: int) returns (r: Result<()>)
      requires Valid()
      modifies this
      ensures Valid()
      ensures r.Ok? <==> id in old(rows)
      ensures r.Err? ==> r.error == BlocklistEntryNotFound
      ensures rows == old(rows) - {id}
    {
      if id !in rows {
        return Err(BlocklistEntryNotFound);
      }
      rows := rows - {id};
      return Ok(());
    }

    /** `delete_blocklist`: empties the table. */
    method DeleteAll()
      requires Valid()
      modifies this
      ensures Valid() && rows == map[]
    {
      rows := map[];
    }

    /** `get_blocklist`: every entry, by id from high to low. */
    method GetAll() returns (entries: seq<Entry>)
      requires Valid()
      ensures |entries| == |rows.Keys|
      ensures forall i, j | 0 <= i < j < |entries| :: entries[i].id > entries[j].id
      ensures forall i | 0 <= i < |entries| :: entries[i].id in rows && entries[i] == EntryOf(entries[i].id)
      ensures forall id | id in rows :: exists i | 0 <= i < |entries| :: entries[i].id == id
    {
      entries := Listing(rows);
    }
  }
}
