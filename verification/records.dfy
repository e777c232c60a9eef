/** Documents as the screen reads them back from the store: a map from field names to values,
    read through the typed getters `getString` and `getBoolean`, and decoded one by one into a
    list that is cleared first and then appended to in document order. */
module Records {

  /** A stored field value, as far as the screen can tell them apart. */
  datatype Value = Str(s: string) | Bool(b: bool) | Null | Other

  /** One document of a query result. */
  type Record = map<string, Value>

  /** What a typed getter gives back: nothing (the field is absent or null), the value, or
      the exception it raises for a field of another type. */
  datatype Field<T> = Missing | Found(value: T) | WrongType {
    /** Kotlin's `?:` after the getter: the value found, or `default` when there is none. */
    function OrElse(default: T): T
    {
      if Found? then value else default
    }
  }

  /** `DocumentSnapshot.getString(key)`. */
  function GetString(r: Record, key: string): Field<string>
  {
    if key !in r then Missing
    else match r[key]
      case Null => Missing
      case Str(s) => Found(s)
      case _ => WrongType
  }

  /** `DocumentSnapshot.getBoolean(key)`. */
  function GetBoolean(r: Record, key: string): Field<bool>
  {
    if key !in r then Missing
    else match r[key]
      case Null => Missing
      case Bool(b) => Found(b)
      case _ => WrongType
  }

  /** A field holds a value of a type other than the one the getter asks for. */
  predicate MistypedString(r: Record, key: string)
  {
    key in r && !r[key].Str? && !r[key].Null?
  }

  predicate MistypedBoolean(r: Record, key: string)
  {
    key in r && !r[key].Bool? && !r[key].Null?
  }

  /** The outcome of decoding one document: skipped (`continue`), an item to append, or the
      exception of a getter, which leaves the loop. */
  datatype Decoded<T> = Skip | Item(value: T) | Fault

  /** The list after the decoding loop: the items appended, and whether every document was
      read (false when a getter raised an exception part-way). */
  datatype Batch<T> = Batch(items: seq<T>, complete: bool)

  /** The clear-then-append loop over a query result: the items of the documents that decode,
      in document order, up to the first document whose decoding raises. */
  function DecodeAll<T>(docs: seq<Record>, decode: Record -> Decoded<T>): (b: Batch<T>)
    ensures |b.items| <= |docs|
  {
    if docs == [] then Batch([], true)
    else
      var rest := DecodeAll(docs[1..], decode);
      match decode(docs[0])
      case Skip => rest
      case Fault => Batch([], false)
      case Item(x) => Batch([x] + rest.items, rest.complete)
  }

  /** The loop reads every document exactly when no document's decoding raises. */
  lemma {:induction false} DecodeAllComplete<T>(docs: seq<Record>, decode: Record -> Decoded<T>)
    ensures DecodeAll(docs, decode).complete <==> forall k :: 0 <= k < |docs| ==> !decode(docs[k]).Fault?
  {
    if docs != [] {
      DecodeAllComplete(docs[1..], decode);
      assert forall k :: 1 <= k < |docs| ==> docs[k] == docs[1..][k - 1];
    }
  }

  /** Every decoded item comes from a document of the result, and when the loop ran to the
      end every document that decodes to an item contributed it. */
  lemma {:induction false} DecodeAllItems<T>(docs: seq<Record>, decode: Record -> Decoded<T>)
    ensures forall x :: x in DecodeAll(docs, decode).items ==>
              exists k :: 0 <= k < |docs| && decode(docs[k]) == Item(x)
    ensures DecodeAll(docs, decode).complete ==>
              forall k :: 0 <= k < |docs| && decode(docs[k]).Item? ==>
                decode(docs[k]).value in DecodeAll(docs, decode).items
  {
    if docs != [] {
      DecodeAllItems(docs[1..], decode);
      assert forall k :: 1 <= k < |docs| ==> docs[k] == docs[1..][k - 1];
      var rest := DecodeAll(docs[1..], decode);
      forall x | x in DecodeAll(docs, decode).items
        ensures exists k :: 0 <= k < |docs| && decode(docs[k]) == Item(x)
      {
        if x in rest.items {
          var k :| 0 <= k < |docs[1..]| && decode(docs[1..][k]) == Item(x);
          assert decode(docs[k + 1]) == Item(x);
        } else {
          assert decode(docs[0]) == Item(x);
        }
      }
    }
  }

  /** Decoding a result in two parts: the second part is read only when the first raised no
      exception, and its items follow the first part's. */
  lemma {:induction false} DecodeAllAppend<T>(a: seq<Record>, b: seq<Record>, decode: Record -> Decoded<T>)
    ensures DecodeAll(a + b, decode) ==
              if DecodeAll(a, decode).complete
              then Batch(DecodeAll(a, decode).items + DecodeAll(b, decode).items, DecodeAll(b, decode).complete)
              else DecodeAll(a, decode)
  {
    if a == [] {
      assert a + b == b;
    } else {
      assert (a + b)[0] == a[0];
      assert (a + b)[1..] == a[1..] + b;
      DecodeAllAppend(a[1..], b, decode);
      var ra, rb := DecodeAll(a[1..], decode), DecodeAll(b, decode);
      match decode(a[0])
      case Skip =>
        assert DecodeAll(a, decode) == ra;
      case Fault =>
        assert DecodeAll(a, decode) == Batch([], false);
      case Item(x) =>
        assert DecodeAll(a, decode) == Batch([x] + ra.items, ra.complete);
        if ra.complete {
          assert [x] + (ra.items + rb.items) == ([x] + ra.items) + rb.items;
        }
    }
  }

  /** One turn of the decoding loop, after documents `docs[..i]` were read without an
      exception: a skipped document adds nothing, a decoded one is appended, and one whose
      decoding raises ends the loop with the items read so far. */
  lemma DecodeAllStep<T>(docs: seq<Record>, i: nat, decode: Record -> Decoded<T>)
    requires i < |docs| && DecodeAll(docs[..i], decode).complete
    ensures DecodeAll(docs[..i + 1], decode) ==
              match decode(docs[i])
              case Skip => DecodeAll(docs[..i], decode)
              case Item(x) => Batch(DecodeAll(docs[..i], decode).items + [x], true)
              case Fault => Batch(DecodeAll(docs[..i], decode).items, false)
  {
    assert docs[..i + 1] == docs[..i] + [docs[i]];
    DecodeAllAppend(docs[..i], [docs[i]], decode);
    assert [docs[i]][1..] == [];
  }

  /** The first document whose decoding raises ends the loop: what was read before it is the
      whole result. */
  lemma DecodeAllFault<T>(docs: seq<Record>, i: nat, decode: Record -> Decoded<T>)
    requires i < |docs| && DecodeAll(docs[..i], decode).complete && decode(docs[i]).Fault?
    ensures DecodeAll(docs, decode) == Batch(DecodeAll(docs[..i], decode).items, false)
  {
    assert docs == docs[..i] + docs[i..];
    DecodeAllAppend(docs[..i], docs[i..], decode);
    assert docs[i..][0] == docs[i];
  }
}
