/** The invoice collection as the code uses it: atomic updates of one document, inserts under unique keys. */
module Collection {
  import opened Base
  import opened Invoices
  import opened Sorting

  function ById(): (less: (Id, Id) -> bool)
    ensures StrictOrder(less)
    ensures forall a, b :: less(a, b) <==> a < b
  {
    (a: Id, b: Id) => a < b
  }

  /** The documents with these ids, as stored now. */
  function Fetch(docs: Docs, ids: seq<Id>): (batch: seq<Invoice>)
    requires forall i :: 0 <= i < |ids| ==> ids[i] in docs
    ensures |batch| == |ids| && forall i :: 0 <= i < |ids| ==> batch[i] == docs[ids[i]]
  {
    seq(|ids|, i requires 0 <= i < |ids| => docs[ids[i]])
  }

  /** The whole collection. */
  function AllInvoices(docs: Docs): seq<Invoice> {
    var ids := Sorted(docs.Keys, ById());
    assert forall i :: 0 <= i < |ids| ==> ids[i] in ids;
    Fetch(docs, ids)
  }

  ghost predicate KeyedById(docs: Docs) { forall id :: id in docs ==> docs[id].id == id }

  /** Some stored document already has this external id or this address. */
  predicate Clashes(docs: Docs, inv: Invoice) {
    exists id :: id in docs && (docs[id].externalId == inv.externalId || docs[id].address == inv.address)
  }

  function Inserted(docs: Docs, inv: Invoice): Docs {
    if Clashes(docs, inv) then docs else docs[inv.id := inv]
  }

  class InvoiceCollection {
    var docs: Docs

    constructor ()
      ensures Valid() && docs == map[]
    {
      docs := map[];
    }

    ghost predicate Valid()
      reads this
    {
      KeyedById(docs)
    }

    /** Mongo's atomic find_one_and_update, returning the document after the update. */
    method FindOneAndUpdate(id: Id, matches: Invoice -> bool, update: Invoice -> Invoice)
        returns (found: Option<Invoice>)
      requires Valid() && forall inv: Invoice :: update(inv).id == inv.id
      modifies this
      ensures Valid()
      ensures if id in old(docs) && matches(old(docs)[id])
              then docs == old(docs)[id := update(old(docs)[id])] && found == Some(docs[id])
              else docs == old(docs) && found == None
    {
      found := None;
      if id in docs && matches(docs[id]) {
        docs := docs[id := update(docs[id])];
        found := Some(docs[id]);
      }
    }

    /** insert_one under the unique indexes on external_id and address; false stands for DuplicateKeyError. */
    method InsertOne(inv: Invoice) returns (inserted: bool)
      requires Valid() && inv.id !in docs
      modifies this
      ensures Valid() && docs == Inserted(old(docs), inv)
      ensures inserted <==> !Clashes(old(docs), inv)
    {
      inserted := !Clashes(docs, inv);
      if inserted {
        docs := docs[inv.id := inv];
      }
    }
  }
}
