/** The two product form requests: who may submit them (`authorize`) and
    which submissions pass (`rules`). Each rule table is written out as in
    the request class and proved equal to a field-by-field reading of it. */
module ProductRequests {
  import opened Common
  import opened Validation

  /** The authenticated user, as far as the requests look at it. */
  datatype Actor = Actor(id: UserId, role: string)

  const ProductTypes: set<string> := {"downloadable", "account"}

  lemma ProductTypesNotBlank()
    ensures NoBlankOption(ProductTypes)
  {
    assert !IsTrimmed("downloadable"[0]);
    assert !IsTrimmed("account"[0]);
  }

  // ---------------------------------------------------------------- create

  /** `StoreProductRequest::authorize`. */
  predicate StoreAuthorized(actor: Option<Actor>) {
    actor.Some? && actor.value.role in {"admin", "seller"}
  }

  /** `StoreProductRequest::rules`; `categories` are the ids `exists:categories,id` finds. */
  predicate StoreValid(req: Request, categories: set<nat>) {
    && FieldValid(req, "category_id", [Required, Exists(categories)])
    && FieldValid(req, "title", [Required, IsString, Max(255 as real)])
    && FieldValid(req, "description", [Required, IsString, Min(10 as real)])
    && FieldValid(req, "price", [Required, Numeric, Min(0.01), Max(999999.99)])
    && FieldValid(req, "type", [Required, In(ProductTypes)])
    && FieldValid(req, "download_file", [RequiredIf("type", "downloadable"), Nullable, IsString])
    && FieldValid(req, "account_details", [RequiredIf("type", "account"), Nullable, IsString])
    && FieldValid(req, "stock_quantity", [Required, IsInteger, Min(1 as real), Max(9999 as real)])
    && FieldValid(req, "images", [Nullable, IsArray, Max(5 as real)])
    && FieldValid(req, "tags", [Nullable, IsArray, Max(10 as real)])
  }

  /** A null-or-string payload field that must be a non-blank string when
      `type` names its product kind. */
  predicate KindPayload(req: Request, f: string, kind: string) {
    && (ValueOf(req, "type") == Str(kind) ==> NonBlankText(ValueOf(req, f)))
    && (f in req && req[f] != Null ==> req[f].Str?)
  }

  /** What a valid new-product submission looks like, field by field. */
  predicate StoreSpec(req: Request, categories: set<nat>) {
    && "category_id" in req && IdIn(req["category_id"], categories)
    && "title" in req && NonBlankText(req["title"]) && |req["title"].s| <= 255
    && "description" in req && NonBlankText(req["description"]) && |req["description"].s| >= 10
    && "price" in req && NumberBetween(req["price"], 0.01, 999999.99)
    && "type" in req && req["type"] in {Str("downloadable"), Str("account")}
    && KindPayload(req, "download_file", "downloadable")
    && KindPayload(req, "account_details", "account")
    && "stock_quantity" in req && WholeBetween(req["stock_quantity"], 1, 9999)
    && (Sent(req, "images") && req["images"] != Null ==> ListUpTo(req["images"], 5))
    && (Sent(req, "tags") && req["tags"] != Null ==> ListUpTo(req["tags"], 10))
  }

  /** The create rules accept exactly the submissions `StoreSpec` describes. */
  lemma StoreRulesMeaning(req: Request, categories: set<nat>)
    ensures StoreValid(req, categories) <==> StoreSpec(req, categories)
  {
    RequiredId(req, "category_id", categories);
    RequiredTextUpTo(req, "title", 255);
    RequiredTextAtLeast(req, "description", 10);
    RequiredNumber(req, "price", 0.01, 999999.99);
    ProductTypesNotBlank();
    RequiredChoice(req, "type", ProductTypes);
    RequiredIfText(req, "download_file", "type", "downloadable");
    RequiredIfText(req, "account_details", "type", "account");
    RequiredWhole(req, "stock_quantity", 1, 9999);
    NullableList(req, "images", 5);
    NullableList(req, "tags", 10);
  }

  // ---------------------------------------------------------------- update

  /** `UpdateProductRequest::authorize` for a product owned by `owner`. */
  predicate UpdateAuthorized(actor: Option<Actor>, owner: UserId) {
    actor.Some? && (actor.value.role == "admin" || actor.value.id == owner)
  }

  /** `UpdateProductRequest::rules`. */
  predicate UpdateValid(req: Request, categories: set<nat>) {
    && FieldValid(req, "category_id", [Sometimes, Exists(categories)])
    && FieldValid(req, "title", [Sometimes, IsString, Max(255 as real)])
    && FieldValid(req, "description", [Sometimes, IsString, Min(10 as real)])
    && FieldValid(req, "price", [Sometimes, Numeric, Min(0.01), Max(999999.99)])
    && FieldValid(req, "type", [Sometimes, In(ProductTypes)])
    && FieldValid(req, "download_file", [RequiredIf("type", "downloadable"), Nullable, IsString])
    && FieldValid(req, "account_details", [RequiredIf("type", "account"), Nullable, IsString])
    && FieldValid(req, "stock_quantity", [Sometimes, IsInteger, Min(0 as real), Max(9999 as real)])
    && FieldValid(req, "is_active", [Sometimes, IsBoolean])
    && FieldValid(req, "is_featured", [Sometimes, IsBoolean])
    && FieldValid(req, "images", [Sometimes, IsArray, Max(5 as real)])
    && FieldValid(req, "tags", [Sometimes, IsArray, Max(10 as real)])
  }

  /** What a valid partial update looks like: every field may be left out
      or sent blank, and a field that is sent with something in it must be
      well formed. */
  predicate UpdateSpec(req: Request, categories: set<nat>) {
    && (Sent(req, "category_id") ==> IdIn(req["category_id"], categories))
    && (Sent(req, "title") ==> req["title"].Str? && |req["title"].s| <= 255)
    && (Sent(req, "description") ==> req["description"].Str? && |req["description"].s| >= 10)
    && (Sent(req, "price") ==> NumberBetween(req["price"], 0.01, 999999.99))
    && (Sent(req, "type") ==> req["type"] in {Str("downloadable"), Str("account")})
    && KindPayload(req, "download_file", "downloadable")
    && KindPayload(req, "account_details", "account")
    && (Sent(req, "stock_quantity") ==> WholeBetween(req["stock_quantity"], 0, 9999))
    && (Sent(req, "is_active") ==> BooleanLike(req["is_active"]))
    && (Sent(req, "is_featured") ==> BooleanLike(req["is_featured"]))
    && (Sent(req, "images") ==> ListUpTo(req["images"], 5))
    && (Sent(req, "tags") ==> ListUpTo(req["tags"], 10))
  }

  /** The update rules accept exactly the submissions `UpdateSpec` describes. */
  lemma UpdateRulesMeaning(req: Request, categories: set<nat>)
    ensures UpdateValid(req, categories) <==> UpdateSpec(req, categories)
  {
    SometimesId(req, "category_id", categories);
    SometimesTextUpTo(req, "title", 255);
    SometimesTextAtLeast(req, "description", 10);
    SometimesNumber(req, "price", 0.01, 999999.99);
    SometimesChoice(req, "type", ProductTypes);
    RequiredIfText(req, "download_file", "type", "downloadable");
    RequiredIfText(req, "account_details", "type", "account");
    SometimesWhole(req, "stock_quantity", 0, 9999);
    SometimesBoolean(req, "is_active");
    SometimesBoolean(req, "is_featured");
    SometimesList(req, "images", 5);
    SometimesList(req, "tags", 10);
  }

  // ------------------------------------------------ create versus update

  /** An empty update is accepted, an empty create is not. */
  lemma EmptySubmissions(categories: set<nat>)
    ensures UpdateValid(map[], categories)
    ensures !StoreValid(map[], categories)
  {
    UpdateRulesMeaning(map[], categories);
    StoreRulesMeaning(map[], categories);
  }

  /** A well-formed stock field can be dropped from an update without
      changing whether the rest of it is well formed. */
  lemma UpdateSpecDropsStock(req: Request, categories: set<nat>)
    requires "stock_quantity" in req && WholeBetween(req["stock_quantity"], 0, 9999)
    ensures UpdateSpec(req, categories) <==> UpdateSpec(req - {"stock_quantity"}, categories)
  {
    var rest := req - {"stock_quantity"};
    assert forall f :: f != "stock_quantity" ==> (f in rest <==> f in req) && ValueOf(rest, f) == ValueOf(req, f);
    assert Sent(rest, "category_id") <==> Sent(req, "category_id");
    assert Sent(rest, "title") <==> Sent(req, "title");
    assert Sent(rest, "description") <==> Sent(req, "description");
    assert Sent(rest, "price") <==> Sent(req, "price");
    assert Sent(rest, "type") <==> Sent(req, "type");
    assert Sent(rest, "is_active") <==> Sent(req, "is_active");
    assert Sent(rest, "is_featured") <==> Sent(req, "is_featured");
    assert Sent(rest, "images") <==> Sent(req, "images");
    assert Sent(rest, "tags") <==> Sent(req, "tags");
  }

  /** A stock of zero sinks a create submission but never an update: the
      update is accepted exactly when it would be without the stock field. */
  lemma StockZeroOnlyOnUpdate(req: Request, categories: set<nat>)
    requires "stock_quantity" in req && IntegerOf(req["stock_quantity"]) == Some(0)
    ensures !StoreValid(req, categories)
    ensures UpdateValid(req, categories) <==> UpdateValid(req - {"stock_quantity"}, categories)
  {
    RequiredWhole(req, "stock_quantity", 1, 9999);
    UpdateRulesMeaning(req, categories);
    UpdateRulesMeaning(req - {"stock_quantity"}, categories);
    UpdateSpecDropsStock(req, categories);
  }

  /** A valid create submission, resent as an update, is accepted as long as
      it does not send `images` or `tags` as null (which only the create
      rules allow) and sends no malformed flag the create rules ignore. */
  lemma CreateSubmissionPassesUpdate(req: Request, categories: set<nat>)
    requires StoreValid(req, categories)
    requires "images" in req ==> req["images"] != Null
    requires "tags" in req ==> req["tags"] != Null
    requires Sent(req, "is_active") ==> BooleanLike(req["is_active"])
    requires Sent(req, "is_featured") ==> BooleanLike(req["is_featured"])
    ensures UpdateValid(req, categories)
  {
    StoreRulesMeaning(req, categories);
    UpdateRulesMeaning(req, categories);
  }

  /** The null-array difference is real: a create submission with `images`
      null passes create and fails update. */
  lemma NullImagesOnlyOnCreate(req: Request, categories: set<nat>)
    requires StoreValid(req, categories)
    requires "images" in req && req["images"] == Null
    ensures !UpdateValid(req, categories)
  {
    UpdateRulesMeaning(req, categories);
  }

  /** Text fields take any text, digits included: a title of "1984" is as
      good as any other, though `numeric` would read it as a number. */
  lemma TitleAnyText(req: Request, categories: set<nat>, s: string)
    requires StoreValid(req, categories)
    requires !IsBlank(s) && |s| <= 255
    ensures StoreValid(req["title" := Str(s)], categories)
  {
    StoreRulesMeaning(req, categories);
    StoreRulesMeaning(req["title" := Str(s)], categories);
  }

  /** `integer` takes whole numbers written plainly: a stock sent as text
      `integer` does not read (such as "5.0" or "1e3") is refused, whatever
      else is sent. */
  lemma DecimalStockRefused(req: Request, categories: set<nat>, s: string)
    requires IntegerText(s).None?
    ensures !StoreValid(req["stock_quantity" := Str(s)], categories)
  {
    RequiredWhole(req["stock_quantity" := Str(s)], "stock_quantity", 1, 9999);
  }

  /** Two create submissions that differ at most in their price are judged
      alike when their prices are. */
  lemma StoreValidByPrice(a: Request, b: Request, categories: set<nat>)
    requires forall f :: f != "price" ==> (f in a <==> f in b) && ValueOf(a, f) == ValueOf(b, f)
    requires FieldValid(a, "price", [Required, Numeric, Min(0.01), Max(999999.99)])
         <==> FieldValid(b, "price", [Required, Numeric, Min(0.01), Max(999999.99)])
    ensures StoreValid(a, categories) <==> StoreValid(b, categories)
  {
    FieldFrame(a, b, "category_id", [Required, Exists(categories)]);
    FieldFrame(a, b, "title", [Required, IsString, Max(255 as real)]);
    FieldFrame(a, b, "description", [Required, IsString, Min(10 as real)]);
    FieldFrame(a, b, "type", [Required, In(ProductTypes)]);
    FieldFrame(a, b, "download_file", [RequiredIf("type", "downloadable"), Nullable, IsString]);
    FieldFrame(a, b, "account_details", [RequiredIf("type", "account"), Nullable, IsString]);
    FieldFrame(a, b, "stock_quantity", [Required, IsInteger, Min(1 as real), Max(9999 as real)]);
    FieldFrame(a, b, "images", [Nullable, IsArray, Max(5 as real)]);
    FieldFrame(a, b, "tags", [Nullable, IsArray, Max(10 as real)]);
  }

  /** Two prices with the same numeric reading are judged alike. */
  lemma SamePriceReading(req: Request, categories: set<nat>, u: Value, w: Value)
    ensures NumberOf(u) == NumberOf(w) ==>
      (StoreValid(req["price" := u], categories) <==> StoreValid(req["price" := w], categories))
  {
    if NumberOf(u) != NumberOf(w) {
      return;
    }
    var a, b := req["price" := u], req["price" := w];
    assert forall f :: f != "price" ==> (f in a <==> f in b) && ValueOf(a, f) == ValueOf(b, f);
    assert NumberBetween(a["price"], 0.01, 999999.99) <==> NumberBetween(b["price"], 0.01, 999999.99);
    RequiredNumber(a, "price", 0.01, 999999.99);
    RequiredNumber(b, "price", 0.01, 999999.99);
    StoreValidByPrice(a, b, categories);
  }

  /** `numeric` takes any text PHP reads as a number, exponents included:
      a price sent as such text (such as "1e3") is judged exactly as the
      number it reads would be. */
  lemma PriceTextAsNumber(req: Request, categories: set<nat>, s: string)
    ensures NumericText(s).Some? ==>
      (StoreValid(req["price" := Str(s)], categories)
       <==> StoreValid(req["price" := Number(NumericText(s).value)], categories))
  {
    if NumericText(s).Some? {
      SamePriceReading(req, categories, Str(s), Number(NumericText(s).value));
    }
  }

  /** A blank description is refused on create, where it is required, and
      skipped on update, where only `sometimes` guards it. */
  lemma BlankDescription(req: Request, categories: set<nat>)
    ensures !StoreValid(req["description" := Str("")], categories)
    ensures UpdateValid(req, categories) ==> UpdateValid(req["description" := Str("")], categories)
  {
    StoreRulesMeaning(req["description" := Str("")], categories);
    UpdateRulesMeaning(req, categories);
    UpdateRulesMeaning(req["description" := Str("")], categories);
  }

  /** Who may create and who may update: admins may do both; sellers may
      create, but update only what they own; an owner may update whatever
      their role; nobody signed out may do either. */
  lemma AuthorityCompared(actor: Option<Actor>, owner: UserId)
    ensures actor.None? ==> !StoreAuthorized(actor) && !UpdateAuthorized(actor, owner)
    ensures actor.Some? && actor.value.role == "admin" ==>
      StoreAuthorized(actor) && UpdateAuthorized(actor, owner)
    ensures actor.Some? && actor.value.role == "seller" && actor.value.id != owner ==>
      StoreAuthorized(actor) && !UpdateAuthorized(actor, owner)
    ensures actor.Some? && actor.value.id == owner ==> UpdateAuthorized(actor, owner)
    ensures actor.Some? && actor.value.role == "buyer" ==>
      !StoreAuthorized(actor) && (UpdateAuthorized(actor, owner) <==> actor.value.id == owner)
  {
  }
}
