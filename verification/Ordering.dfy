/** The comparators the engine hands to the stable sort, and the classes on which they
    are orders. */
module Ordering {
  import opened Bson
  import opened Paths
  import opened StableSort

  /** The `$sort` comparator of `$push`. */
  function ValueLess(desc: bool): Less<Value> {
    (x, y) => if desc then Compare(x, y) > 0 else Compare(x, y) < 0
  }

  /** The value a document is sorted by; nil when the path leads nowhere. */
  function SortKey(doc: Document, field: string): Value {
    ValueByPath(doc, field).value
  }

  /** The comparator of `sortDocs` for one entry of the sort document. */
  function DocLess(field: string, desc: bool): Less<Document> {
    (x, y) => ValueLess(desc)(SortKey(x, field), SortKey(y, field))
  }

  /** One comparable class: the numbers, or everything else. */
  function InClass(numeric: bool): Value -> bool {
    v => IsNumber(v) == numeric
  }

  ghost predicate OneClass(values: seq<Value>, numeric: bool) {
    All(InClass(numeric), values)
  }

  function KeyInClass(field: string, numeric: bool): Document -> bool {
    doc => IsNumber(SortKey(doc, field)) == numeric
  }

  lemma ValueLessIsWeakOrder(desc: bool, numeric: bool)
    ensures WeakOrder(ValueLess(desc), InClass(numeric))
  {
    var less, dom := ValueLess(desc), InClass(numeric);
    forall x, y | dom(x) && dom(y) && less(x, y) ensures !less(y, x) {
      CompareAgreesWithEqual(x, y);
    }
    forall x, y, z | dom(x) && dom(y) && dom(z) && !less(y, x) && !less(z, y) ensures !less(z, x) {
      NotLessTransitive(desc, x, y, z);
    }
  }

  lemma NotLessTransitive(desc: bool, x: Value, y: Value, z: Value)
    requires Comparable(x, y) && Comparable(y, z)
    requires !ValueLess(desc)(y, x) && !ValueLess(desc)(z, y)
    ensures !ValueLess(desc)(z, x)
  {
    CompareAgreesWithEqual(x, y);
    CompareAgreesWithEqual(y, z);
    CompareAgreesWithEqual(x, z);
    if desc {
      CompareTransitive(z, y, x);
    } else {
      CompareTransitive(x, y, z);
    }
  }

  lemma DocLessIsWeakOrder(field: string, desc: bool, numeric: bool)
    ensures WeakOrder(DocLess(field, desc), KeyInClass(field, numeric))
  {
    var less, dom := DocLess(field, desc), KeyInClass(field, numeric);
    forall x, y | dom(x) && dom(y) && less(x, y) ensures !less(y, x) {
      var kx, ky := SortKey(x, field), SortKey(y, field);
      assert ValueLess(desc)(kx, ky);
      CompareAgreesWithEqual(kx, ky);
      assert less(y, x) == ValueLess(desc)(ky, kx);
    }
    forall x, y, z | dom(x) && dom(y) && dom(z) && !less(y, x) && !less(z, y) ensures !less(z, x) {
      var kx, ky, kz := SortKey(x, field), SortKey(y, field), SortKey(z, field);
      assert !ValueLess(desc)(ky, kx) && !ValueLess(desc)(kz, ky);
      NotLessTransitive(desc, kx, ky, kz);
      assert less(z, x) == ValueLess(desc)(kz, kx);
    }
  }
}
