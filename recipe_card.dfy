/**
 * The recipe card: normalising an untrusted recipe suggestion into one
 * record, cleaning and re-reading its instructions, the show-more cut, and
 * the fallbacks, counts and order guard the card renders from the record.
 *
 * `JSON.parse` is a parameter: `parse(text)` is `Some(v)` when the text is
 * JSON denoting `v`, and `None` when `JSON.parse` throws.
 */
module RecipeCard {
  import opened Wrappers
  import opened JsValue
  import opened JsString
  import opened Inventory

  type Parser = string -> Option<Value>

  const PlaceholderName: string := "Recipe Suggestion"
  const PlaceholderDescription: string := "AI-generated recipe based on your ingredients"
  const FallbackMissing: seq<Value> := [Str("Salt"), Str("Pepper"), Str("Oil")]
  const NoInstructions: string := "No instructions available"
  const DefaultMaxLength: nat := 150

  /** The names of the first three inventory items, or of all of them when there are fewer. */
  function FirstNames(inventory: seq<Item>): (r: seq<Value>)
    ensures |r| == if |inventory| < 3 then |inventory| else 3
    ensures forall i :: 0 <= i < |r| ==> r[i] == Str(inventory[i].name)
  {
    var k := if |inventory| < 3 then |inventory| else 3;
    seq(k, i requires 0 <= i < k => Str(inventory[i].name))
  }

  /** The record built when reading the suggestion as JSON throws. */
  function Synthetic(raw: string, inventory: seq<Item>): (r: Value)
    ensures r.Obj? && Truthy(Prop(r, "name")) && Prop(r, "instructions") == Str(raw)
  {
    Obj(map[
      "name" := Str(PlaceholderName),
      "description" := Str(PlaceholderDescription),
      "instructions" := Str(raw),
      "availableIngredients" := Arr(FirstNames(inventory)),
      "missingIngredients" := Arr(FallbackMissing)])
  }

  /** `parsed.recipes[0]` when `parsed.recipes` is a non-empty array. */
  function FirstRecipe(parsed: Value): (r: Option<Value>)
    requires !Nullish(parsed)
    ensures r.Some? <==> Prop(parsed, "recipes").Arr? && |Prop(parsed, "recipes").elems| > 0
  {
    var recipes := Prop(parsed, "recipes");
    if Truthy(recipes) && recipes.Arr? && |recipes.elems| > 0 then Some(recipes.elems[0]) else None
  }

  /**
   * `parseRecipeData`. A `null` suggestion makes `recipeData.name` throw,
   * so it is excluded.
   */
  function ParseRecipeData(raw: Value, inventory: seq<Item>, parse: Parser): (r: Value)
    requires raw != Null
    ensures !raw.Str? ==> r == raw
    ensures raw.Str? ==>
      || r == raw
      || r == Synthetic(raw.s, inventory)
      || (parse(raw.s).Some? && !Nullish(parse(raw.s).value) && FirstRecipe(parse(raw.s).value) == Some(r))
  {
    if IsObjectType(raw) && Truthy(Prop(raw, "name")) then raw
    else if raw.Str? then
      match parse(raw.s)
      case None => Synthetic(raw.s, inventory)
      case Some(parsed) =>
        // `parsed.recipes` throws on `null`, and the catch builds the record
        if Nullish(parsed) then Synthetic(raw.s, inventory)
        else match FirstRecipe(parsed)
          case Some(first) => first
          case None => raw
    else raw
  }

  /** An object or array with a truthy `name` is returned unchanged. */
  lemma NamedObjectUnchanged(raw: Value, inventory: seq<Item>, parse: Parser)
    requires (raw.Obj? || raw.Arr?) && Truthy(Prop(raw, "name"))
    ensures ParseRecipeData(raw, inventory, parse) == raw
  {
  }

  /** A string that parses to a value whose `recipes` is a non-empty array yields its first element, whatever follows it. */
  lemma FirstRecipeWins(raw: string, inventory: seq<Item>, parse: Parser, first: Value, rest: seq<Value>,
                        props: map<string, Value>)
    requires parse(raw) == Some(Obj(props)) && "recipes" in props && props["recipes"] == Arr([first] + rest)
    ensures ParseRecipeData(Str(raw), inventory, parse) == first
  {
  }

  /** A string whose parse throws, or parses to `null`, yields the synthetic record. */
  lemma SyntheticOnThrow(raw: string, inventory: seq<Item>, parse: Parser)
    requires parse(raw).None? || parse(raw) == Some(Null)
    ensures var r := ParseRecipeData(Str(raw), inventory, parse);
      && r.Obj?
      && Prop(r, "name") == Str(PlaceholderName)
      && Prop(r, "description") == Str(PlaceholderDescription)
      && Prop(r, "instructions") == Str(raw)
      && Prop(r, "availableIngredients") == Arr(FirstNames(inventory))
      && Prop(r, "missingIngredients") == Arr(FallbackMissing)
      && r.props.Keys == {"name", "description", "instructions", "availableIngredients", "missingIngredients"}
  {
  }

  /**
   * A string that parses to a non-null value without a non-empty `recipes`
   * array is returned as it is: no synthetic record is built for it.
   */
  lemma ParsedWithoutRecipesUnchanged(raw: string, inventory: seq<Item>, parse: Parser)
    requires parse(raw).Some? && !Nullish(parse(raw).value)
    requires !(Prop(parse(raw).value, "recipes").Arr? && |Prop(parse(raw).value, "recipes").elems| > 0)
    ensures ParseRecipeData(Str(raw), inventory, parse) == Str(raw)
  {
  }

  /** Normalising is stable on the synthetic record: reading it again leaves it as it is. */
  lemma SyntheticIsStable(raw: string, inventory: seq<Item>, parse: Parser)
    requires parse(raw).None? || parse(raw) == Some(Null)
    ensures var r := ParseRecipeData(Str(raw), inventory, parse);
      ParseRecipeData(r, inventory, parse) == r
  {
    SyntheticOnThrow(raw, inventory, parse);
  }

  // Rendering from the normalised record. Reading a property of a
  // `null` or `undefined` record throws, so the render functions require a
  // record that is neither.

  /** The card title: the record's name, or the placeholder when it is falsy. */
  function Title(p: Value): (r: Value)
    requires !Nullish(p)
    ensures Truthy(r)
    ensures Truthy(Prop(p, "name")) ==> r == Prop(p, "name")
    ensures !Truthy(Prop(p, "name")) ==> r == Str(PlaceholderName)
  {
    Or(Prop(p, "name"), Str(PlaceholderName))
  }

  /** The card subtitle: the record's description, or the placeholder when it is falsy. */
  function Subtitle(p: Value): (r: Value)
    requires !Nullish(p)
    ensures Truthy(r)
    ensures Truthy(Prop(p, "description")) ==> r == Prop(p, "description")
    ensures !Truthy(Prop(p, "description")) ==> r == Str(PlaceholderDescription)
  {
    Or(Prop(p, "description"), Str(PlaceholderDescription))
  }

  /** The footer count: the list's length when the list is truthy, otherwise 0. */
  function FooterCount(p: Value, key: string): (r: Value)
    requires !Nullish(p)
    ensures !Truthy(Prop(p, key)) ==> r == Num(0)
    ensures Prop(p, key).Arr? ==> r == Num(|Prop(p, key).elems|)
  {
    var list := Prop(p, key);
    if Truthy(list) then Prop(list, "length") else Num(0)
  }

  /** What an ingredient section renders: nothing, one badge per list element, or a throw. */
  datatype Section = Hidden | Badges(items: seq<Value>) | RenderThrows

  /**
   * The ingredient section's guard: the list is truthy and its length,
   * converted to a number, is above 0. `None` when that conversion throws.
   */
  function SectionGuard(p: Value, key: string): (r: Option<bool>)
    requires !Nullish(p)
    ensures !Truthy(Prop(p, key)) ==> r == Some(false)
    ensures Prop(p, key).Arr? ==> r == Some(|Prop(p, key).elems| > 0)
    ensures Prop(p, key).Str? ==> r == Some(|Prop(p, key).s| > 0)
  {
    var list := Prop(p, key);
    if Truthy(list) then GreaterThanZero(Prop(list, "length")) else Some(false)
  }

  /**
   * The ingredient section as rendered. It is hidden when the guard fails. An
   * array list gives one badge per element. The render throws when the
   * length conversion throws, or when the guard lets through a list that is
   * not an array and so has no `map`.
   */
  function RenderSection(p: Value, key: string): (r: Section)
    requires !Nullish(p)
    ensures r.Badges? <==> Prop(p, key).Arr? && |Prop(p, key).elems| > 0
    ensures r.Badges? ==> r.items == Prop(p, key).elems
    ensures r.RenderThrows? <==> !Prop(p, key).Arr? && SectionGuard(p, key) != Some(false)
  {
    match SectionGuard(p, key)
    case None => RenderThrows
    case Some(pass) =>
      if !pass then Hidden
      else if Prop(p, key).Arr? then Badges(Prop(p, key).elems)
      else RenderThrows
  }

  /**
   * The guard compares the footer count with 0: it passes, fails or throws
   * exactly as that comparison does. Shown badges number the footer count.
   */
  lemma SectionShownIffCounted(p: Value, key: string)
    requires !Nullish(p)
    ensures SectionGuard(p, key) == GreaterThanZero(FooterCount(p, key))
    ensures RenderSection(p, key).Badges? ==> FooterCount(p, key) == Num(|RenderSection(p, key).items|)
  {
  }

  /**
   * For a list that is an object, the guard is its `length` compared with
   * 0, and whenever that comparison passes or throws, so does the render:
   * an object has no `map`. A `length` of `true`, of `[1]` or of a digit
   * string such as "2" passes (GreaterThanZero, SingletonArrayComparesAsNumber,
   * DigitStringComparesAsNumber).
   */
  lemma ObjectListFollowsLength(key: string, len: Value)
    ensures SectionGuard(Obj(map[key := Obj(map["length" := len])]), key) == GreaterThanZero(len)
    ensures GreaterThanZero(len) != Some(false) ==> RenderSection(Obj(map[key := Obj(map["length" := len])]), key) == RenderThrows
  {
    var p := Obj(map[key := Obj(map["length" := len])]);
    assert Prop(p, key) == Obj(map["length" := len]);
    assert Prop(Prop(p, key), "length") == len;
  }

  /** A non-empty string passes the guard, and the render throws at `map`. */
  lemma StringListThrows(key: string, s: string)
    requires s != ""
    ensures RenderSection(Obj(map[key := Str(s)]), key) == RenderThrows
  {
    assert Prop(Obj(map[key := Str(s)]), key) == Str(s);
  }

  /**
   * The guard of `handleOrderMissing`: the list it would send, or `None`
   * when it returns before making a request.
   */
  function OrderRequest(p: Value): (r: Option<Value>)
    requires !Nullish(p)
    ensures Truthy(Prop(p, "missingIngredients")) && r.Some? ==> r.value == Prop(p, "missingIngredients")
    ensures !Truthy(Prop(p, "missingIngredients")) ==> r.None?
    ensures Prop(p, "missingIngredients").Arr? ==> (r.None? <==> |Prop(p, "missingIngredients").elems| == 0)
  {
    var missing := Or(Prop(p, "missingIngredients"), Arr([]));
    if Prop(missing, "length") == Num(0) then None else Some(missing)
  }

  /** The synthetic record asks for its three fallback ingredients. */
  lemma SyntheticOrdersFallback(raw: string, inventory: seq<Item>)
    ensures OrderRequest(Synthetic(raw, inventory)) == Some(Arr(FallbackMissing))
    ensures FooterCount(Synthetic(raw, inventory), "missingIngredients") == Num(3)
    ensures FooterCount(Synthetic(raw, inventory), "availableIngredients")
         == Num(if |inventory| < 3 then |inventory| else 3)
  {
  }

  /**
   * `truncateText`; `None` is a missing text. The cut
   * keeps the first `maxLength` characters and appends "...".
   */
  function TruncateText(text: Option<string>, maxLength: nat): (r: string)
    ensures text.None? || text == Some("") ==> r == ""
    ensures text.Some? && |text.value| <= maxLength ==> r == text.value
    ensures text.Some? && |text.value| > maxLength ==>
      |r| == maxLength + 3 && r[..maxLength] == text.value[..maxLength] && r[maxLength..] == "..."
  {
    match text
    case None => ""
    case Some(t) => if t == "" || |t| <= maxLength then t else t[..maxLength] + "..."
  }

  /** The four global replacements of `formatInstructions`. */
  function Clean(s: string): (r: string)
    ensures |r| <= |s|
  {
    var noJsonFence := ReplaceAll(s, "```json", "");
    var noFence := ReplaceAll(noJsonFence, Fence, "");
    var quotes := ReplaceAll(noFence, "\\\"", "\"");
    ReplaceAll(quotes, "\\n", "\n")
  }

  /** The cleaned text never contains a code fence. */
  lemma CleanHasNoFence(s: string)
    ensures !Includes(Clean(s), Fence)
  {
    var noFence := ReplaceAll(ReplaceAll(s, "```json", ""), Fence, "");
    RemovingFencesLeavesNone(ReplaceAll(s, "```json", ""));
    ReplacingKeepsNoFence(noFence, "\\\"", "\"");
    ReplacingKeepsNoFence(ReplaceAll(noFence, "\\\"", "\""), "\\n", "\n");
  }

  /** Text without fences and without the two escapes is left as it is. */
  lemma CleanKeepsPlainText(s: string)
    requires !Includes(s, Fence) && !Includes(s, "```json") && !Includes(s, "\\\"") && !Includes(s, "\\n")
    ensures Clean(s) == s
  {
    ReplaceAllAbsent(s, "```json", "");
    ReplaceAllAbsent(s, Fence, "");
    ReplaceAllAbsent(s, "\\\"", "\"");
    ReplaceAllAbsent(s, "\\n", "\n");
  }

  /** Cleaning twice can differ from cleaning once: `\\"` becomes `\"` and then `"`. */
  lemma CleanNotIdempotent()
    ensures Clean("\\\\\"") == "\\\""
    ensures Clean(Clean("\\\\\"")) == "\""
  {
    assert ReplaceAll("\\\\\"", "```json", "") == "\\\\\"";
    assert ReplaceAll("\\\\\"", Fence, "") == "\\\\\"";
    assert ReplaceAll("\\\"", "\\\"", "\"") == "\"";
    assert ReplaceAll("\\\\\"", "\\\"", "\"") == "\\\"";
    assert ReplaceAll("\\\"", "\\n", "\n") == "\\\"";
    assert ReplaceAll("\\\"", "```json", "") == "\\\"";
    assert ReplaceAll("\\\"", Fence, "") == "\\\"";
    assert ReplaceAll("\"", "\\n", "\n") == "\"";
  }

  /** A recipe's contribution: its truthy `instructions`, else its truthy `description`, else the empty string. */
  function Pick(r: Value): (v: Value)
    requires !Nullish(r)
    ensures !Nullish(v)
    ensures Truthy(Prop(r, "instructions")) ==> v == Prop(r, "instructions")
    ensures !Truthy(Prop(r, "instructions")) && Truthy(Prop(r, "description")) ==> v == Prop(r, "description")
    ensures !Truthy(Prop(r, "instructions")) && !Truthy(Prop(r, "description")) ==> v == Str("")
  {
    Or(Or(Prop(r, "instructions"), Prop(r, "description")), Str(""))
  }

  /**
   * The cleaned text reads as JSON whose `recipes` the `map` goes through
   * without throwing: a non-null value whose `recipes` is an array of
   * non-null values. A truthy non-array `recipes` has no `map` and throws,
   * and a falsy one is skipped; both end in the cleaned text.
   */
  predicate MapsRecipes(json: Option<Value>) {
    && json.Some?
    && !Nullish(json.value)
    && Prop(json.value, "recipes").Arr?
    && forall i :: 0 <= i < |Prop(json.value, "recipes").elems| ==> !Nullish(Prop(json.value, "recipes").elems[i])
  }

  /** What the `map` over `recipes` produces: one picked value per recipe, in order. */
  function Pieces(json: Option<Value>): (r: seq<Value>)
    requires MapsRecipes(json)
    ensures |r| == |Prop(json.value, "recipes").elems|
    ensures forall i :: 0 <= i < |r| ==> r[i] == Pick(Prop(json.value, "recipes").elems[i])
  {
    var recipes := Prop(json.value, "recipes").elems;
    seq(|recipes|, i requires 0 <= i < |recipes| => Pick(recipes[i]))
  }

  /**
   * The text read out of the cleaned JSON: the pieces joined by a single
   * space, or `None` when the code falls back to the cleaned text. It falls
   * back when `recipes` cannot be mapped, and when the join throws because
   * a piece cannot be converted to a string.
   */
  function RecipesText(json: Option<Value>): (r: Option<string>)
    ensures r.Some? <==> MapsRecipes(json) && forall i :: 0 <= i < |Pieces(json)| ==> Stringifiable(Pieces(json)[i])
  {
    if MapsRecipes(json) then JoinValues(Pieces(json), " ") else None
  }

  /**
   * `formatInstructions`; `None` when it throws, which it does exactly for a
   * truthy value that is not a string (`replace` is not a function on it).
   */
  function FormatInstructions(instructions: Value, parse: Parser): (r: Option<string>)
    ensures !Truthy(instructions) ==> r == Some(NoInstructions)
    ensures r.None? <==> Truthy(instructions) && !instructions.Str?
  {
    if !Truthy(instructions) then Some(NoInstructions)
    else if !instructions.Str? then None
    else
      var cleanText := Clean(instructions.s);
      match RecipesText(parse(cleanText))
      case Some(text) => Some(text)
      case None => Some(cleanText)
  }

  /**
   * For non-empty text, the result is the text read out of the cleaned JSON
   * when there is one, and otherwise the cleaned text, which has no code
   * fence.
   */
  lemma FormatInstructionsSpec(text: string, parse: Parser)
    requires text != ""
    ensures RecipesText(parse(Clean(text))).Some? ==>
      FormatInstructions(Str(text), parse) == RecipesText(parse(Clean(text)))
    ensures RecipesText(parse(Clean(text))).None? ==>
      && FormatInstructions(Str(text), parse) == Some(Clean(text))
      && !Includes(FormatInstructions(Str(text), parse).value, Fence)
  {
    CleanHasNoFence(text);
  }

  /** When every picked piece is a string, the text read out is those strings separated by single spaces. */
  lemma RecipesTextOfStrings(json: Option<Value>)
    requires MapsRecipes(json)
    requires forall i :: 0 <= i < |Pieces(json)| ==> Pieces(json)[i].Str?
    ensures RecipesText(json) == Some(Join(seq(|Pieces(json)|, i requires 0 <= i < |Pieces(json)| => Pieces(json)[i].s), " "))
  {
    var pieces := Pieces(json);
    JoinStrings(pieces, " ");
    assert seq(|pieces|, i requires 0 <= i < |pieces| => pieces[i].s)
        == seq(|Pieces(json)|, i requires 0 <= i < |Pieces(json)| => Pieces(json)[i].s);
  }

  /**
   * A recipe whose instructions are an object with its own `toString` key
   * makes the join throw, and the cleaned text is shown instead.
   */
  lemma UnconvertibleInstructionsFallBack(text: string, parse: Parser)
    requires text != ""
    requires parse(Clean(text)) == Some(Obj(map["recipes" := Arr([Obj(map["instructions" := Obj(map["toString" := Num(1)])])])]))
    ensures FormatInstructions(Str(text), parse) == Some(Clean(text))
  {
    var json := parse(Clean(text));
    assert !Stringifiable(Pieces(json)[0]);
  }

  /**
   * The card's view state: its props (the suggestion and the inventory),
   * and the show-more flag. The record is normalised from the current props
   * on every render.
   */
  class RecipeCardView {
    var recipe: Value
    var inventory: seq<Item>
    const parse: Parser
    var showFullInstructions: bool

    /** The card starts collapsed. */
    constructor (recipe: Value, inventory: seq<Item>, parse: Parser)
      requires recipe != Null
      ensures this.recipe == recipe && this.inventory == inventory && this.parse == parse
      ensures !showFullInstructions
    {
      this.recipe := recipe;
      this.inventory := inventory;
      this.parse := parse;
      showFullInstructions := false;
    }

    /** The record this render shows. */
    function ParsedRecipe(): (r: Value)
      requires recipe != Null
      reads this
      ensures !recipe.Str? ==> r == recipe
    {
      ParseRecipeData(recipe, inventory, parse)
    }

    /** The formatted instructions of the record. */
    function Formatted(): (r: Option<string>)
      requires recipe != Null && !Nullish(ParsedRecipe())
      reads this
      ensures r.None? <==> Truthy(Prop(ParsedRecipe(), "instructions")) && !Prop(ParsedRecipe(), "instructions").Str?
    {
      FormatInstructions(Prop(ParsedRecipe(), "instructions"), parse)
    }

    /** The instructions paragraph: the whole text when expanded, its 150-character cut when collapsed. */
    function VisibleInstructions(): (r: Option<string>)
      requires recipe != Null && !Nullish(ParsedRecipe())
      reads this
      ensures r.None? <==> Formatted().None?
      ensures showFullInstructions ==> r == Formatted()
      ensures !showFullInstructions && r.Some? ==> |r.value| <= DefaultMaxLength + 3
      ensures !showFullInstructions && r.Some? && |Formatted().value| <= DefaultMaxLength ==> r == Formatted()
      ensures !showFullInstructions && r.Some? && |Formatted().value| > DefaultMaxLength ==>
        r.value == Formatted().value[..DefaultMaxLength] + "..."
    {
      match Formatted()
      case None => None
      case Some(f) => Some(if showFullInstructions then f else TruncateText(Some(f), DefaultMaxLength))
    }

    /** The show-more button is rendered when the formatted text is longer than 150 characters. */
    predicate ShowsToggle()
      requires recipe != Null && !Nullish(ParsedRecipe())
      reads this
    {
      Formatted().Some? && |Formatted().value| > DefaultMaxLength
    }

    /** The button's handler: flips the flag and nothing else. */
    method ToggleInstructions()
      modifies this`showFullInstructions
      ensures showFullInstructions == !old(showFullInstructions)
    {
      showFullInstructions := !showFullInstructions;
    }

    /**
     * A render with new props: the record is normalised afresh, and the
     * show-more flag, being state, keeps its value.
     */
    method ReceiveProps(recipe: Value, inventory: seq<Item>)
      requires recipe != Null
      modifies this`recipe, this`inventory
      ensures this.recipe == recipe && this.inventory == inventory
      ensures ParsedRecipe() == ParseRecipeData(recipe, inventory, parse)
      ensures showFullInstructions == old(showFullInstructions)
    {
      this.recipe := recipe;
      this.inventory := inventory;
    }

    /** Without the button the collapsed and expanded views show the same text. */
    lemma ShortTextShownWhole()
      requires recipe != Null && !Nullish(ParsedRecipe()) && !ShowsToggle()
      ensures VisibleInstructions() == Formatted()
    {
    }
  }

  /**
   * A prose suggestion that does not read as JSON: the card is titled with
   * the placeholder and its expanded instructions are the text read out of
   * the cleaned prose, or else the cleaned prose.
   */
  lemma ProseSuggestion(raw: string, inventory: seq<Item>, parse: Parser)
    requires raw != "" && parse(raw).None?
    ensures var p := ParseRecipeData(Str(raw), inventory, parse);
      && !Nullish(p)
      && Title(p) == Str(PlaceholderName)
      && FormatInstructions(Prop(p, "instructions"), parse)
         == Some(if RecipesText(parse(Clean(raw))).Some? then RecipesText(parse(Clean(raw))).value else Clean(raw))
  {
    SyntheticOnThrow(raw, inventory, parse);
  }
}
