/** The immutable product descriptor `ProductType`. */
module Products {
  import opened Failures
  import opened Text

  /** A product: its fields are fixed once the value exists. */
  datatype ProductType = ProductType(id: int, name: string, basePrice: int, category: string) {

    /** What the validating constructor guarantees of every product it builds. */
    predicate Valid() {
      id > 0 && !IsNullOrWhiteSpace(name) && basePrice >= 0 && !IsNullOrWhiteSpace(category)
    }

    /** `Describe`: the name followed by the base price in kroner, "Cola (15 kr.)". */
    function Describe(): (r: string)
      ensures |r| > |name| + 7
      ensures r[..|name|] == name && r[|name|..|name| + 2] == " ("
      ensures r[|r| - 5..] == " kr.)"
      ensures basePrice >= 0 ==>
                IsDigits(r[|name| + 2..|r| - 5]) && ParseDigits(r[|name| + 2..|r| - 5]) == basePrice
      ensures basePrice >= 0 ==> r[|name| + 2..|r| - 5] == NatToString(basePrice)
    {
      var price := IntToString(basePrice);
      var r := name + " (" + price + " kr.)";
      assert r[|name| + 2..|r| - 5] == price;
      assert basePrice >= 0 ==> IsDigits(price) && ParseDigits(price) == basePrice by {
        if basePrice >= 0 { NatToStringRoundTrip(basePrice); }
      }
      r
    }
  }

  /** The `ProductType` constructor: the checks in source order, each failing
      with the parameter it names; on success the fields are the arguments. */
  function NewProduct(id: int, name: string, basePrice: int, category: string): (r: Result<ProductType>)
    ensures r.Success? <==>
              id > 0 && !IsNullOrWhiteSpace(name) && basePrice >= 0 && !IsNullOrWhiteSpace(category)
    ensures r.Success? ==> r.value == ProductType(id, name, basePrice, category) && r.value.Valid()
    ensures id <= 0 ==> r == Failure(InvalidArgument("id"))
    ensures id > 0 && IsNullOrWhiteSpace(name) ==> r == Failure(InvalidArgument("name"))
    ensures id > 0 && !IsNullOrWhiteSpace(name) && basePrice < 0 ==> r == Failure(InvalidArgument("basePrice"))
    ensures (id > 0 && !IsNullOrWhiteSpace(name) && basePrice >= 0 && IsNullOrWhiteSpace(category))
              ==> r == Failure(InvalidArgument("category"))
  {
    if id <= 0 then Failure(InvalidArgument("id"))
    else if IsNullOrWhiteSpace(name) then Failure(InvalidArgument("name"))
    else if basePrice < 0 then Failure(InvalidArgument("basePrice"))
    else if IsNullOrWhiteSpace(category) then Failure(InvalidArgument("category"))
    else Success(ProductType(id, name, basePrice, category))
  }
}
