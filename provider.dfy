/**
 * The product-metadata providers of package provider and their first-success
 * combinator Multi.
 */
module Provider {
  import opened Wrappers

  /** What a provider knows about a barcode. */
  datatype Product = Product(name: string, description: string)

  /** Go's zero Product{}. */
  const ZeroProduct := Product("", "")

  /** An error: one provider's own, or several joined in order (errors.Join). */
  datatype Error = Message(text: string) | Joined(errs: seq<Error>)

  /** What a provider returns: a product, and an error that is nil on success. */
  datatype Response = Response(product: Product, err: Option<Error>)

  /** A provider, as the answer it gives for each barcode. */
  type Source = string -> Response

  /** errors.Join of non-nil errors: nil when there are none. */
  function Join(errs: seq<Error>): (r: Option<Error>)
    ensures r.None? <==> errs == []
    ensures r.Some? ==> r.value == Joined(errs)
  {
    if errs == [] then None else Some(Joined(errs))
  }

  /** The position of the first provider that answers without an error. */
  function FirstSuccess(m: seq<Source>, barcode: string): (r: Option<nat>)
    ensures r.Some? ==> r.value < |m| && m[r.value](barcode).err.None?
    ensures r.Some? ==> forall j :: 0 <= j < r.value ==> m[j](barcode).err.Some?
    ensures r.None? ==> forall j :: 0 <= j < |m| ==> m[j](barcode).err.Some?
  {
    if m == [] then None
    else if m[0](barcode).err.None? then Some(0)
    else match FirstSuccess(m[1..], barcode)
      case Some(i) => Some(i + 1)
      case None => None
  }

  /** The errors of the providers that failed, in provider order. */
  function Errors(m: seq<Source>, barcode: string): (r: seq<Error>)
    ensures |r| <= |m|
    ensures |r| == |m| <==> forall j :: 0 <= j < |m| ==> m[j](barcode).err.Some?
  {
    if m == [] then []
    else
      var last := m[|m| - 1](barcode).err;
      Errors(m[..|m| - 1], barcode) + (if last.Some? then [last.value] else [])
  }

  datatype Multi = Multi(providers: seq<Source>) {
    /**
     * Asks each provider in turn for the barcode and returns the product of
     * the first that succeeds, asking none after it; when all fail, the zero
     * Product and all their errors joined. `asked` counts the providers asked.
     */
    method Product(barcode: string) returns (product: Product, err: Option<Error>, asked: nat)
      ensures asked <= |providers|
      ensures match FirstSuccess(providers, barcode)
        case Some(i) => asked == i + 1 && product == providers[i](barcode).product && err.None?
        case None => asked == |providers| && product == ZeroProduct && err == Join(Errors(providers, barcode))
    {
      var errs: seq<Error> := [];
      for i := 0 to |providers|
        invariant forall j :: 0 <= j < i ==> providers[j](barcode).err.Some?
        invariant errs == Errors(providers[..i], barcode)
      {
        assert providers[..i + 1][..i] == providers[..i];
        var response := providers[i](barcode);
        if response.err.None? {
          return response.product, None, i + 1;
        }
        errs := errs + [response.err.value];
      }
      assert providers[..|providers|] == providers;
      return ZeroProduct, Join(errs), |providers|;
    }
  }

  /** Once some provider succeeds, providers after it never affect the answer. */
  lemma {:induction false} LaterProvidersIgnored(m: seq<Source>, later: seq<Source>, barcode: string)
    requires FirstSuccess(m, barcode).Some?
    ensures FirstSuccess(m + later, barcode) == FirstSuccess(m, barcode)
  {
    assert (m + later)[0] == m[0];
    if m[0](barcode).err.Some? {
      assert (m + later)[1..] == m[1..] + later;
      LaterProvidersIgnored(m[1..], later, barcode);
    }
  }

  /** When every provider fails, there is one error per provider, in provider order. */
  lemma {:induction false} AllErrorsKept(m: seq<Source>, barcode: string)
    requires forall j :: 0 <= j < |m| ==> m[j](barcode).err.Some?
    ensures |Errors(m, barcode)| == |m|
    ensures forall j :: 0 <= j < |m| ==> m[j](barcode).err == Some(Errors(m, barcode)[j])
  {
    if m != [] {
      var init := m[..|m| - 1];
      AllErrorsKept(init, barcode);
      assert forall j :: 0 <= j < |init| ==> init[j] == m[j];
    }
  }

  /** An empty Multi has nothing to ask: the zero Product and a nil error. */
  lemma EmptyMulti(barcode: string)
    ensures FirstSuccess([], barcode) == None
    ensures Join(Errors([], barcode)) == None
  {
  }
}
