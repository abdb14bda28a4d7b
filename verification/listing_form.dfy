/**
  The listing form of the scan page: a field edit, the image size check, and
  the upload's validation and the form data it sends.

  Field values are the JavaScript values the form state holds; an absent key
  is `undefined`. `Number(…)` on strings is modelled for optionally signed
  decimal literals.
 */
module ListingForm {
  import opened Wrappers
  import opened Numbers
  import opened Sequences

  datatype FormValue = Str(s: string) | Num(n: Option<real>) | Flag(b: bool)

  /** `productDetails`. */
  type Details = map<string, FormValue>

  function Get(d: Details, name: string): Option<FormValue> {
    if name in d then Some(d[name]) else None
  }

  /** JavaScript truthiness; `Num(None)` is NaN. */
  predicate Truthy(v: Option<FormValue>) {
    match v
    case None => false
    case Some(Str(s)) => s != ""
    case Some(Num(n)) => n.Some? && n.value != 0.0
    case Some(Flag(b)) => b
  }

  /** `Number(v)`. */
  function ToNumber(v: Option<FormValue>): Option<real> {
    match v
    case None => None
    case Some(Str(s)) => ParseNumber(s)
    case Some(Num(n)) => n
    case Some(Flag(b)) => Some(if b then 1.0 else 0.0)
  }

  // ---------------------------------------------------------------------
  // Editing the form and choosing a file.
  // ---------------------------------------------------------------------

  /**
    `handleInputChange`: the named field takes the new value (the checkbox's
    `checked` or the input's `value`); choosing "donate" also sets the price
    to '0'.
   */
  function HandleInputChange(d: Details, name: string, value: FormValue): (r: Details)
    ensures name in r && r[name] == value
    ensures forall k :: k in d && k != name && k != "price" ==> k in r && r[k] == d[k]
    ensures r.Keys <= d.Keys + {name, "price"}
    ensures name == "donationOrSale" && value == Str("donate") ==> "price" in r && r["price"] == Str("0")
    ensures !(name == "donationOrSale" && value == Str("donate")) && name != "price" ==> Get(r, "price") == Get(d, "price")
  {
    var next := d[name := value];
    if name == "donationOrSale" && value == Str("donate") then next["price" := Str("0")] else next
  }

  datatype File = File(name: string, size: nat)

  const MaxFileSize: nat := 5 * 1024 * 1024

  /** `handleFileSelect`: the selection afterwards, and whether the size error was shown. */
  datatype Selection = Selection(file: Option<File>, rejected: bool)

  function HandleFileSelect(current: Option<File>, chosen: Option<File>): (r: Selection)
    ensures r.rejected <==> chosen.Some? && chosen.value.size > MaxFileSize
    ensures r.rejected || chosen.None? ==> r.file == current
    ensures !r.rejected && chosen.Some? ==> r.file == chosen
  {
    match chosen
    case None => Selection(current, false)
    case Some(f) => if f.size > MaxFileSize then Selection(current, true) else Selection(chosen, false)
  }

  // ---------------------------------------------------------------------
  // Uploading.
  // ---------------------------------------------------------------------

  const RequiredFields: seq<string> := ["itemName", "category", "condition", "weight", "quantity", "location"]

  /** `requiredFields.filter(field => !productDetails[field])`. */
  function MissingFields(d: Details, fields: seq<string>): (r: seq<string>)
    ensures forall f :: f in r <==> f in fields && !Truthy(Get(d, f))
    ensures Subsequence(r, fields)
  {
    if |fields| == 0 then []
    else
      var rest := MissingFields(d, fields[1..]);
      if !Truthy(Get(d, fields[0])) then [fields[0]] + rest
      else
        SubsequenceSkip(rest, fields);
        rest
  }

  datatype Entry = Entry(key: string, value: FormValue)

  /** The entry when the value is defined; `formData.append` is skipped for undefined. */
  function Append(key: string, v: Option<FormValue>): seq<Entry> {
    if v.Some? then [Entry(key, v.value)] else []
  }

  /** `Number(productDetails.price || 0)`. */
  function PriceOf(d: Details): Option<real> {
    if Truthy(Get(d, "price")) then ToNumber(Get(d, "price")) else Some(0.0)
  }

  /** `formattedDetails`, with the entries whose value is undefined left out. */
  function FormData(d: Details, wallet: string): seq<Entry> {
    var enabled := Truthy(Get(d, "biddingEnabled"));
    [Entry("user", Str(wallet))]
    + Append("itemName", Get(d, "itemName"))
    + Append("category", Get(d, "category"))
    + Append("condition", Get(d, "condition"))
    + [Entry("weight", Num(ToNumber(Get(d, "weight")))),
       Entry("quantity", Num(ToNumber(Get(d, "quantity"))))]
    + Append("location", Get(d, "location"))
    + [Entry("donationOrSale", Str(if Get(d, "donationOrSale") == Some(Str("sell")) then "sell" else "donate")),
       Entry("price", Num(if Get(d, "donationOrSale") == Some(Str("donate")) then Some(0.0) else PriceOf(d))),
       Entry("biddingEnabled", Str(if enabled then "true" else "false"))]
    + Append("biddingEndTime", if enabled then Get(d, "biddingEndTime") else None)
    + [Entry("status", Str("pending")), Entry("biddingStatus", Str("active"))]
  }

  datatype UploadOutcome = NoFile | Missing(fields: seq<string>) | BadWeight | BadQuantity | NoWallet | Send(form: seq<Entry>)

  predicate PositiveNumber(v: Option<FormValue>) {
    ToNumber(v).Some? && ToNumber(v).value > 0.0
  }

  /** `handleUpload` up to the request it sends. */
  function HandleUpload(hasFile: bool, d: Details, wallet: string): (r: UploadOutcome)
    ensures !hasFile ==> r == NoFile
    ensures hasFile && |MissingFields(d, RequiredFields)| > 0 ==> r == Missing(MissingFields(d, RequiredFields))
    ensures r.Missing? ==> |r.fields| > 0 && Subsequence(r.fields, RequiredFields)
    ensures (hasFile && |MissingFields(d, RequiredFields)| == 0 && !PositiveNumber(Get(d, "weight"))) ==> r == BadWeight
    ensures (hasFile && |MissingFields(d, RequiredFields)| == 0 && PositiveNumber(Get(d, "weight"))
             && !PositiveNumber(Get(d, "quantity"))) ==> r == BadQuantity
    ensures (hasFile && |MissingFields(d, RequiredFields)| == 0 && PositiveNumber(Get(d, "weight"))
             && PositiveNumber(Get(d, "quantity"))) ==> r == (if wallet == "" then NoWallet else Send(FormData(d, wallet)))
    ensures r.Send? ==> && hasFile && wallet != ""
                        && (forall f :: f in RequiredFields ==> Truthy(Get(d, f)))
                        && PositiveNumber(Get(d, "weight")) && PositiveNumber(Get(d, "quantity"))
  {
    if !hasFile then NoFile
    else
      var missing := MissingFields(d, RequiredFields);
      if |missing| > 0 then Missing(missing)
      else if !PositiveNumber(Get(d, "weight")) then BadWeight
      else if !PositiveNumber(Get(d, "quantity")) then BadQuantity
      else if wallet == "" then NoWallet
      else Send(FormData(d, wallet))
  }

  predicate HasEntry(form: seq<Entry>, key: string) {
    exists k :: 0 <= k < |form| && form[k].key == key
  }

  /** The form carries one disposition entry: "sell" exactly when "sell" was chosen, else "donate". */
  lemma FormDataDisposition(d: Details, wallet: string)
    ensures var form := FormData(d, wallet);
            && (Entry("donationOrSale", Str("sell")) in form <==> Get(d, "donationOrSale") == Some(Str("sell")))
            && (Entry("donationOrSale", Str("donate")) in form <==> Get(d, "donationOrSale") != Some(Str("sell")))
  {
    var form := FormData(d, wallet);
    var enabled := Truthy(Get(d, "biddingEnabled"));
    var before := [Entry("user", Str(wallet))]
      + Append("itemName", Get(d, "itemName"))
      + Append("category", Get(d, "category"))
      + Append("condition", Get(d, "condition"))
      + [Entry("weight", Num(ToNumber(Get(d, "weight")))),
         Entry("quantity", Num(ToNumber(Get(d, "quantity"))))]
      + Append("location", Get(d, "location"));
    var disposition := Entry("donationOrSale", Str(if Get(d, "donationOrSale") == Some(Str("sell")) then "sell" else "donate"));
    var after := [Entry("price", Num(if Get(d, "donationOrSale") == Some(Str("donate")) then Some(0.0) else PriceOf(d))),
                  Entry("biddingEnabled", Str(if enabled then "true" else "false"))]
      + Append("biddingEndTime", if enabled then Get(d, "biddingEndTime") else None)
      + [Entry("status", Str("pending")), Entry("biddingStatus", Str("active"))];
    assert form == before + [disposition] + after;
    assert forall e: Entry :: e in before + after ==> e.key != "donationOrSale";
  }

  /** The disposition is sent as "sell" exactly when "sell" was chosen, and as "donate" otherwise. */
  lemma UploadSendsDisposition(hasFile: bool, d: Details, wallet: string)
    requires HandleUpload(hasFile, d, wallet).Send?
    ensures var form := HandleUpload(hasFile, d, wallet).form;
            && (Entry("donationOrSale", Str("sell")) in form <==> Get(d, "donationOrSale") == Some(Str("sell")))
            && (Entry("donationOrSale", Str("donate")) in form <==> Get(d, "donationOrSale") != Some(Str("sell")))
  {
    assert HandleUpload(hasFile, d, wallet).form == FormData(d, wallet);
    FormDataDisposition(d, wallet);
  }

  /** A donation's price is sent as 0, any other as `Number(price || 0)`. */
  lemma UploadSendsPrice(hasFile: bool, d: Details, wallet: string)
    requires HandleUpload(hasFile, d, wallet).Send?
    ensures var form := HandleUpload(hasFile, d, wallet).form;
            && (Get(d, "donationOrSale") == Some(Str("donate")) ==> Entry("price", Num(Some(0.0))) in form)
            && (Get(d, "donationOrSale") != Some(Str("donate")) ==> Entry("price", Num(PriceOf(d))) in form)
  {
    var form := HandleUpload(hasFile, d, wallet).form;
    assert form == FormData(d, wallet);
  }

  /** The end time is sent only with bidding on, and then exactly when the form holds one. */
  lemma UploadEndTimeOnlyWithBidding(hasFile: bool, d: Details, wallet: string)
    requires HandleUpload(hasFile, d, wallet).Send?
    ensures var form := HandleUpload(hasFile, d, wallet).form;
            HasEntry(form, "biddingEndTime") <==> Truthy(Get(d, "biddingEnabled")) && "biddingEndTime" in d
  {
    var form := HandleUpload(hasFile, d, wallet).form;
    assert form == FormData(d, wallet);
    if Truthy(Get(d, "biddingEnabled")) && "biddingEndTime" in d {
      assert Entry("biddingEndTime", d["biddingEndTime"]) in form;
    }
  }

  /** With bidding off, a sent upload carries `biddingEnabled` as the string "false" and no end time. */
  lemma UploadWithoutBiddingSendsFalse(hasFile: bool, d: Details, wallet: string)
    requires HandleUpload(hasFile, d, wallet).Send?
    requires !Truthy(Get(d, "biddingEnabled"))
    ensures var form := HandleUpload(hasFile, d, wallet).form;
            Entry("biddingEnabled", Str("false")) in form && !HasEntry(form, "biddingEndTime")
  {
    var form := HandleUpload(hasFile, d, wallet).form;
    assert form == FormData(d, wallet);
    UploadEndTimeOnlyWithBidding(hasFile, d, wallet);
  }

  /** A donation chosen through the form uploads with price 0, whatever price was typed before. */
  lemma DonateChoiceZeroesPrice(d: Details, wallet: string)
    requires HandleUpload(true, HandleInputChange(d, "donationOrSale", Str("donate")), wallet).Send?
    ensures Entry("price", Num(Some(0.0))) in HandleUpload(true, HandleInputChange(d, "donationOrSale", Str("donate")), wallet).form
  {
    UploadSendsPrice(true, HandleInputChange(d, "donationOrSale", Str("donate")), wallet);
  }
}
