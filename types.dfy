/** The camelCase copies of the response validators: the same objects with
    every key renamed from snake_case to camelCase. */
module Types {
  import opened Json
  import opened Zod
  import Schemas

  const ImageKeys: seq<string> := ["itemId", "imageId", "src", "width", "height", "caption", "credit"]

  /** `itemImageSchema`: seven required strings. */
  const ItemImage: Schema :=
    Obj([Req("itemId", Str), Req("imageId", Str), Req("src", Str), Req("width", Str),
         Req("height", Str), Req("caption", Str), Req("credit", Str)])

  const VideoKeys: seq<string> := ["itemId", "imageId", "src", "width", "vid"]

  /** `itemVideoSchema`: the first four image keys, an optional `length`
      and a required `vid`; no `height`. */
  const ItemVideo: Schema :=
    Obj([Req("itemId", Str), Req("imageId", Str), Req("src", Str), Req("width", Str),
         Opt("length", Str), Req("vid", Str)])

  /** The fourteen required string keys of an article. */
  const ArticleKeys: seq<string> :=
    ["itemId", "resolveId", "givenUrl", "givenTitle", "resolvedUrl", "resolvedTitle",
     "favorite", "status", "excerpt", "isArticle", "isIndex", "hasImage", "hasVideo", "wordCount"]

  const ArticleOptionalStrings: seq<string> :=
    ["timeAdded", "timeUpdated", "timeRead", "timeFavorited", "tags", "authors", "lang", "topImageUrl"]

  const ArticleOptionalNumbers: seq<string> := ["sortId", "timeToRead", "listenDurationEstimate"]

  /** `articleSchema`. */
  const Article: Schema :=
    Obj([Req("itemId", Str), Req("resolveId", Str), Req("givenUrl", Str), Req("givenTitle", Str),
         Req("resolvedUrl", Str), Req("resolvedTitle", Str), Req("favorite", Str), Req("status", Str),
         Opt("timeAdded", Str), Opt("timeUpdated", Str), Opt("timeRead", Str), Opt("timeFavorited", Str),
         Opt("sortId", Num), Req("excerpt", Str), Req("isArticle", Str), Req("isIndex", Str),
         Req("hasImage", Str), Req("hasVideo", Str), Req("wordCount", Str), Opt("tags", Str),
         Opt("authors", Str), Opt("images", Arr(ItemImage)), Opt("videos", Arr(ItemVideo)),
         Opt("lang", Str), Opt("timeToRead", Num), Opt("listenDurationEstimate", Num),
         Opt("topImageUrl", Str), Opt("domainMetadata", Anything)])

  /** `apiGetSessionResSchema`. */
  const ApiGetSessionRes: Schema := Obj([Opt("username", Str)])

  /** `apiGetArticlesResSchema`: `articles` defaults to the empty list. */
  const ApiGetArticlesRes: Schema := Obj([Def("articles", Arr(Article), JArr([]))])

  /** `apiAuthzResSchema`. */
  const ApiAuthzRes: Schema := Obj([Opt("username", Str)])

  // What each validator accepts, stated key by key.

  predicate ImageShape(j: Json) {
    j.JObj? && StringsAt(j.fields, ImageKeys)
  }

  predicate VideoShape(j: Json) {
    j.JObj? && StringsAt(j.fields, VideoKeys) && OptionalStringsAt(j.fields, ["length"])
  }

  predicate ArticleShape(j: Json) {
    j.JObj? &&
    StringsAt(j.fields, ArticleKeys) &&
    OptionalStringsAt(j.fields, ArticleOptionalStrings) &&
    OptionalNumbersAt(j.fields, ArticleOptionalNumbers) &&
    OptionalArrayAt(j.fields, "images", ImageShape) &&
    OptionalArrayAt(j.fields, "videos", VideoShape)
  }

  /** A value whose only constraint is an optional string `username`. */
  predicate UsernameShape(j: Json) {
    j.JObj? && OptionalStringsAt(j.fields, ["username"])
  }

  /** An image passes exactly when all seven keys hold strings. */
  lemma ImageValid(j: Json)
    ensures Valid(ItemImage, j) <==> ImageShape(j)
  {
    var fs := ItemImage.fields;
    if j.JObj? {
      forall k | k in ImageKeys ensures exists i :: 0 <= i < |fs| && fs[i] == Req(k, Str) {
        var i :| 0 <= i < |ImageKeys| && ImageKeys[i] == k;
        assert fs[i] == Req(k, Str);
      }
      assert forall i :: 0 <= i < |fs| ==> fs[i] == Req(fs[i].key, Str) && fs[i].key in ImageKeys;
    }
  }

  /** A video passes exactly when its five required keys hold strings and
      a present `length` is a string; parsing drops any `height`. */
  lemma VideoValid(j: Json)
    ensures Valid(ItemVideo, j) <==> VideoShape(j)
    ensures Valid(ItemVideo, j) ==> "height" !in Output(ItemVideo, j).fields
  {
    if Valid(ItemVideo, j) {
      ObjectOutputKeys(ItemVideo.fields, j, "height");
    }
    var fs := ItemVideo.fields;
    if j.JObj? {
      var ids := [0, 1, 2, 3, 5];
      forall k | k in VideoKeys ensures exists i :: 0 <= i < |fs| && fs[i] == Req(k, Str) {
        var n :| 0 <= n < |VideoKeys| && VideoKeys[n] == k;
        assert fs[ids[n]] == Req(k, Str);
      }
      assert fs[4] == Opt("length", Str);
      assert forall i :: 0 <= i < |fs| ==> (fs[i] == Req(fs[i].key, Str) && fs[i].key in VideoKeys) || fs[i] == Opt("length", Str);
    }
  }

  /** Where each group of keys sits in `articleSchema`. */
  const RequiredAt: seq<nat> := [0, 1, 2, 3, 4, 5, 6, 7, 13, 14, 15, 16, 17, 18]
  const OptionalStringAt: seq<nat> := [8, 9, 10, 11, 19, 20, 23, 26]
  const OptionalNumberAt: seq<nat> := [12, 24, 25]

  lemma ArticleLayout()
    ensures |Article.fields| == 28
    ensures forall n :: 0 <= n < |ArticleKeys| ==> RequiredAt[n] < 28 && Article.fields[RequiredAt[n]] == Req(ArticleKeys[n], Str)
    ensures forall n :: 0 <= n < |ArticleOptionalStrings| ==> OptionalStringAt[n] < 28 && Article.fields[OptionalStringAt[n]] == Opt(ArticleOptionalStrings[n], Str)
    ensures forall n :: 0 <= n < |ArticleOptionalNumbers| ==> OptionalNumberAt[n] < 28 && Article.fields[OptionalNumberAt[n]] == Opt(ArticleOptionalNumbers[n], Num)
    ensures Article.fields[21] == Opt("images", Arr(ItemImage))
    ensures Article.fields[22] == Opt("videos", Arr(ItemVideo))
    ensures Article.fields[27] == Opt("domainMetadata", Anything)
    ensures forall i :: 0 <= i < 28 ==> i in RequiredAt || i in OptionalStringAt || i in OptionalNumberAt || i in {21, 22, 27}
  {
  }

  lemma ArticleValidStrings(j: Json)
    requires Valid(Article, j)
    ensures StringsAt(j.fields, ArticleKeys) && OptionalStringsAt(j.fields, ArticleOptionalStrings)
  {
    ArticleLayout();
    forall k | k in ArticleKeys ensures k in j.fields && j.fields[k].JStr? {
      var n :| 0 <= n < |ArticleKeys| && ArticleKeys[n] == k;
      assert FieldValid(Article.fields[RequiredAt[n]], j.fields);
    }
    forall k | k in ArticleOptionalStrings && k in j.fields ensures j.fields[k].JStr? {
      var n :| 0 <= n < |ArticleOptionalStrings| && ArticleOptionalStrings[n] == k;
      assert FieldValid(Article.fields[OptionalStringAt[n]], j.fields);
    }
  }

  lemma ArticleValidRest(j: Json)
    requires Valid(Article, j)
    ensures OptionalNumbersAt(j.fields, ArticleOptionalNumbers)
    ensures OptionalArrayAt(j.fields, "images", ImageShape)
    ensures OptionalArrayAt(j.fields, "videos", VideoShape)
  {
    ArticleLayout();
    forall k | k in ArticleOptionalNumbers && k in j.fields ensures j.fields[k].JNum? {
      var n :| 0 <= n < |ArticleOptionalNumbers| && ArticleOptionalNumbers[n] == k;
      assert FieldValid(Article.fields[OptionalNumberAt[n]], j.fields);
    }
    assert FieldValid(Article.fields[21], j.fields) && FieldValid(Article.fields[22], j.fields);
    forall x ensures Valid(ItemImage, x) == ImageShape(x) { ImageValid(x); }
    forall x ensures Valid(ItemVideo, x) == VideoShape(x) { VideoValid(x); }
  }

  lemma ArticleValidShape(j: Json)
    requires Valid(Article, j)
    ensures ArticleShape(j)
  {
    ArticleValidStrings(j);
    ArticleValidRest(j);
  }

  lemma ArticleShapeValid(j: Json)
    requires ArticleShape(j)
    ensures Valid(Article, j)
  {
    ArticleLayout();
    var fs := Article.fields;
    var m := j.fields;
    forall x ensures Valid(ItemImage, x) == ImageShape(x) { ImageValid(x); }
    forall x ensures Valid(ItemVideo, x) == VideoShape(x) { VideoValid(x); }
    forall i | 0 <= i < |fs| ensures FieldValid(fs[i], m) {
      if i in RequiredAt {
        var n :| 0 <= n < |RequiredAt| && RequiredAt[n] == i;
        assert ArticleKeys[n] in ArticleKeys;
      } else if i in OptionalStringAt {
        var n :| 0 <= n < |OptionalStringAt| && OptionalStringAt[n] == i;
        assert ArticleOptionalStrings[n] in ArticleOptionalStrings;
      } else if i in OptionalNumberAt {
        var n :| 0 <= n < |OptionalNumberAt| && OptionalNumberAt[n] == i;
        assert ArticleOptionalNumbers[n] in ArticleOptionalNumbers;
      }
    }
  }

  /** An article passes exactly when its fourteen required keys hold
      strings, its optional keys hold strings or numbers as declared when
      present, and present `images` and `videos` are arrays of valid images
      and videos; `domainMetadata` may hold anything. */
  lemma ArticleValid(j: Json)
    ensures Valid(Article, j) <==> ArticleShape(j)
  {
    if Valid(Article, j) { ArticleValidShape(j); }
    if ArticleShape(j) { ArticleShapeValid(j); }
  }

  /** An articles response without `articles` parses to an empty list, and
      every other key is dropped. */
  lemma MissingArticlesDefault(j: Json)
    requires j.JObj? && "articles" !in j.fields
    ensures Valid(ApiGetArticlesRes, j)
    ensures Output(ApiGetArticlesRes, j) == JObj(map["articles" := JArr([])])
  {
    assert FieldValid(ApiGetArticlesRes.fields[0], j.fields);
    var o := Output(ApiGetArticlesRes, j);
    forall k ensures k in o.fields <==> k == "articles" {
      ObjectOutputKeys(ApiGetArticlesRes.fields, j, k);
    }
    ObjectOutputField(ApiGetArticlesRes.fields, j, 0);
    assert |Output(Arr(Article), JArr([])).items| == 0;
    assert o.fields == map["articles" := JArr([])];
  }

  /** The session and authorization responses accept exactly an object whose
      `username`, if present, is a string. */
  lemma UsernameResponses(j: Json)
    ensures Valid(ApiGetSessionRes, j) <==> UsernameShape(j)
    ensures Valid(ApiAuthzRes, j) <==> UsernameShape(j)
  {
    if j.JObj? {
      assert ApiGetSessionRes.fields[0] == Opt("username", Str);
    }
  }

  /** Parsing either response keeps `username` when it is present and drops
      every other key. */
  lemma UsernameParse(j: Json)
    requires Valid(ApiGetSessionRes, j)
    ensures Output(ApiGetSessionRes, j) ==
              JObj(if "username" in j.fields then map["username" := j.fields["username"]] else map[])
    ensures Output(ApiAuthzRes, j) == Output(ApiGetSessionRes, j)
  {
    var o := Output(ApiGetSessionRes, j);
    forall k ensures k in o.fields <==> k == "username" && "username" in j.fields {
      ObjectOutputKeys(ApiGetSessionRes.fields, j, k);
    }
    if "username" in j.fields {
      ObjectOutputField(ApiGetSessionRes.fields, j, 0);
    }
  }

  // Renaming snake_case keys to camelCase.

  function Capitalize(c: char): char {
    if 'a' <= c <= 'z' then (c as int - 32) as char else c
  }

  function CapitalizeWord(w: string): string {
    if |w| == 0 then w else [Capitalize(w[0])] + w[1..]
  }

  /** A name's words: at least one, none empty, none holding `_`. */
  predicate Words(ws: seq<string>) {
    |ws| > 0 && forall i :: 0 <= i < |ws| ==> |ws[i]| > 0 && '_' !in ws[i]
  }

  /** The words joined by `_`. */
  function SnakeOf(ws: seq<string>): string
    requires |ws| > 0
    decreases |ws|
  {
    if |ws| == 1 then ws[0] else ws[0] + "_" + SnakeOf(ws[1..])
  }

  /** The first word, then each further word capitalized. */
  function CamelOf(ws: seq<string>): string
    requires |ws| > 0
  {
    ws[0] + CapitalizedWords(ws[1..])
  }

  function CapitalizedWords(ws: seq<string>): string
    decreases |ws|
  {
    if |ws| == 0 then "" else CapitalizeWord(ws[0]) + CapitalizedWords(ws[1..])
  }

  /** `camel` is the camelCase of the snake_case name `snake`: both are
      spelled from the same words. */
  ghost predicate Renamed(snake: string, camel: string) {
    exists ws :: Words(ws) && snake == SnakeOf(ws) && camel == CamelOf(ws)
  }

  /** The first word of a snake_case name ends at its first `_`. */
  lemma SnakeOfFirstWord(ws: seq<string>)
    ensures Words(ws) ==>
      (forall i :: 0 <= i < |ws[0]| ==> i < |SnakeOf(ws)| && SnakeOf(ws)[i] == ws[0][i] && ws[0][i] != '_') &&
      (|ws| == 1 ==> SnakeOf(ws) == ws[0]) &&
      (|ws| > 1 ==> |SnakeOf(ws)| > |ws[0]| && SnakeOf(ws)[|ws[0]|] == '_' &&
                    SnakeOf(ws)[|ws[0]| + 1..] == SnakeOf(ws[1..]))
  {
    if Words(ws) {
      forall i | 0 <= i < |ws[0]| ensures ws[0][i] != '_' {
        assert ws[0][i] in ws[0];
      }
      if |ws| > 1 {
        assert SnakeOf(ws) == ws[0] + "_" + SnakeOf(ws[1..]);
      }
    }
  }

  lemma {:induction false} SnakeOfInjective(ws: seq<string>, vs: seq<string>)
    requires Words(ws) && Words(vs) && SnakeOf(ws) == SnakeOf(vs)
    ensures ws == vs
    decreases |ws|
  {
    SnakeOfFirstWord(ws);
    SnakeOfFirstWord(vs);
    if |ws| > 1 && |vs| > 1 {
      assert ws[0] == vs[0];
      SnakeOfInjective(ws[1..], vs[1..]);
      assert ws == [ws[0]] + ws[1..];
      assert vs == [vs[0]] + vs[1..];
    }
  }

  /** Renaming a snake_case name gives exactly one camelCase name. */
  lemma RenamedFunctional(snake: string, c1: string, c2: string)
    requires Renamed(snake, c1) && Renamed(snake, c2)
    ensures c1 == c2
  {
    var ws :| Words(ws) && snake == SnakeOf(ws) && c1 == CamelOf(ws);
    var vs :| Words(vs) && snake == SnakeOf(vs) && c2 == CamelOf(vs);
    SnakeOfInjective(ws, vs);
  }

  /** `b` is `a` with every object key renamed from snake_case to
      camelCase, and nothing else changed. */
  ghost predicate SchemaRenamed(a: Schema, b: Schema)
    decreases a
  {
    match a
    case Arr(e) => b.Arr? && SchemaRenamed(e, b.element)
    case Obj(fields) =>
      b.Obj? && |b.fields| == |fields| &&
      forall i :: 0 <= i < |fields| ==> FieldRenamed(fields[i], b.fields[i])
    case _ => b == a
  }

  ghost predicate FieldRenamed(f: Field, g: Field)
    decreases f
  {
    Renamed(f.key, g.key) && g.presence == f.presence && SchemaRenamed(f.schema, g.schema)
  }

  /** A field is renamed when its key's words are `ws` and nothing else
      differs. */
  lemma FieldRenamedBy(f: Field, g: Field, ws: seq<string>)
    requires Words(ws) && f.key == SnakeOf(ws) && g.key == CamelOf(ws)
    requires g.presence == f.presence && SchemaRenamed(f.schema, g.schema)
    ensures FieldRenamed(f, g)
  {
  }

  lemma ItemImageField0Renamed()
    ensures FieldRenamed(Schemas.ItemImage.fields[0], ItemImage.fields[0])
  {
    assert Schemas.ItemImage.fields[0].key == "item_id" && ItemImage.fields[0].key == "itemId";
    assert SnakeOf(["item", "id"]) == "item_id" && CamelOf(["item", "id"]) == "itemId";
    FieldRenamedBy(Schemas.ItemImage.fields[0], ItemImage.fields[0], ["item", "id"]);
  }

  lemma ItemImageField1Renamed()
    ensures FieldRenamed(Schemas.ItemImage.fields[1], ItemImage.fields[1])
  {
    assert Schemas.ItemImage.fields[1].key == "image_id" && ItemImage.fields[1].key == "imageId";
    assert SnakeOf(["image", "id"]) == "image_id" && CamelOf(["image", "id"]) == "imageId";
    FieldRenamedBy(Schemas.ItemImage.fields[1], ItemImage.fields[1], ["image", "id"]);
  }

  lemma ItemImageField2Renamed()
    ensures FieldRenamed(Schemas.ItemImage.fields[2], ItemImage.fields[2])
  {
    assert Schemas.ItemImage.fields[2].key == "src" && ItemImage.fields[2].key == "src";
    assert SnakeOf(["src"]) == "src" && CamelOf(["src"]) == "src";
    FieldRenamedBy(Schemas.ItemImage.fields[2], ItemImage.fields[2], ["src"]);
  }

  lemma ItemImageField3Renamed()
    ensures FieldRenamed(Schemas.ItemImage.fields[3], ItemImage.fields[3])
  {
    assert Schemas.ItemImage.fields[3].key == "width" && ItemImage.fields[3].key == "width";
    assert SnakeOf(["width"]) == "width" && CamelOf(["width"]) == "width";
    FieldRenamedBy(Schemas.ItemImage.fields[3], ItemImage.fields[3], ["width"]);
  }

  lemma ItemImageField4Renamed()
    ensures FieldRenamed(Schemas.ItemImage.fields[4], ItemImage.fields[4])
  {
    assert Schemas.ItemImage.fields[4].key == "height" && ItemImage.fields[4].key == "height";
    assert SnakeOf(["height"]) == "height" && CamelOf(["height"]) == "height";
    FieldRenamedBy(Schemas.ItemImage.fields[4], ItemImage.fields[4], ["height"]);
  }

  lemma ItemImageField5Renamed()
    ensures FieldRenamed(Schemas.ItemImage.fields[5], ItemImage.fields[5])
  {
    assert Schemas.ItemImage.fields[5].key == "caption" && ItemImage.fields[5].key == "caption";
    assert SnakeOf(["caption"]) == "caption" && CamelOf(["caption"]) == "caption";
    FieldRenamedBy(Schemas.ItemImage.fields[5], ItemImage.fields[5], ["caption"]);
  }

  lemma ItemImageField6Renamed()
    ensures FieldRenamed(Schemas.ItemImage.fields[6], ItemImage.fields[6])
  {
    assert Schemas.ItemImage.fields[6].key == "credit" && ItemImage.fields[6].key == "credit";
    assert SnakeOf(["credit"]) == "credit" && CamelOf(["credit"]) == "credit";
    FieldRenamedBy(Schemas.ItemImage.fields[6], ItemImage.fields[6], ["credit"]);
  }

  lemma ItemVideoField0Renamed()
    ensures FieldRenamed(Schemas.ItemVideo.fields[0], ItemVideo.fields[0])
  {
    assert Schemas.ItemVideo.fields[0].key == "item_id" && ItemVideo.fields[0].key == "itemId";
    assert SnakeOf(["item", "id"]) == "item_id" && CamelOf(["item", "id"]) == "itemId";
    FieldRenamedBy(Schemas.ItemVideo.fields[0], ItemVideo.fields[0], ["item", "id"]);
  }

  lemma ItemVideoField1Renamed()
    ensures FieldRenamed(Schemas.ItemVideo.fields[1], ItemVideo.fields[1])
  {
    assert Schemas.ItemVideo.fields[1].key == "image_id" && ItemVideo.fields[1].key == "imageId";
    assert SnakeOf(["image", "id"]) == "image_id" && CamelOf(["image", "id"]) == "imageId";
    FieldRenamedBy(Schemas.ItemVideo.fields[1], ItemVideo.fields[1], ["image", "id"]);
  }

  lemma ItemVideoField2Renamed()
    ensures FieldRenamed(Schemas.ItemVideo.fields[2], ItemVideo.fields[2])
  {
    assert Schemas.ItemVideo.fields[2].key == "src" && ItemVideo.fields[2].key == "src";
    assert SnakeOf(["src"]) == "src" && CamelOf(["src"]) == "src";
    FieldRenamedBy(Schemas.ItemVideo.fields[2], ItemVideo.fields[2], ["src"]);
  }

  lemma ItemVideoField3Renamed()
    ensures FieldRenamed(Schemas.ItemVideo.fields[3], ItemVideo.fields[3])
  {
    assert Schemas.ItemVideo.fields[3].key == "width" && ItemVideo.fields[3].key == "width";
    assert SnakeOf(["width"]) == "width" && CamelOf(["width"]) == "width";
    FieldRenamedBy(Schemas.ItemVideo.fields[3], ItemVideo.fields[3], ["width"]);
  }

  lemma ItemVideoField4Renamed()
    ensures FieldRenamed(Schemas.ItemVideo.fields[4], ItemVideo.fields[4])
  {
    assert Schemas.ItemVideo.fields[4].key == "length" && ItemVideo.fields[4].key == "length";
    assert SnakeOf(["length"]) == "length" && CamelOf(["length"]) == "length";
    FieldRenamedBy(Schemas.ItemVideo.fields[4], ItemVideo.fields[4], ["length"]);
  }

  lemma ItemVideoField5Renamed()
    ensures FieldRenamed(Schemas.ItemVideo.fields[5], ItemVideo.fields[5])
  {
    assert Schemas.ItemVideo.fields[5].key == "vid" && ItemVideo.fields[5].key == "vid";
    assert SnakeOf(["vid"]) == "vid" && CamelOf(["vid"]) == "vid";
    FieldRenamedBy(Schemas.ItemVideo.fields[5], ItemVideo.fields[5], ["vid"]);
  }

  /** The camelCase image validator is the snake_case one with its keys
      renamed. */
  lemma ItemImageRenamed()
    ensures SchemaRenamed(Schemas.ItemImage, ItemImage)
  {
    ItemImageField0Renamed();
    ItemImageField1Renamed();
    ItemImageField2Renamed();
    ItemImageField3Renamed();
    ItemImageField4Renamed();
    ItemImageField5Renamed();
    ItemImageField6Renamed();
  }

  /** The camelCase video validator is the snake_case one with its keys
      renamed. */
  lemma ItemVideoRenamed()
    ensures SchemaRenamed(Schemas.ItemVideo, ItemVideo)
  {
    ItemVideoField0Renamed();
    ItemVideoField1Renamed();
    ItemVideoField2Renamed();
    ItemVideoField3Renamed();
    ItemVideoField4Renamed();
    ItemVideoField5Renamed();
  }

  /** Both username responses are their snake_case counterparts: `username`
      is one word, so it keeps its name. */
  lemma UsernameResponsesRenamed()
    ensures SchemaRenamed(Schemas.ApiGetSessionRes, ApiGetSessionRes)
    ensures SchemaRenamed(Schemas.ApiAuthzRes, ApiAuthzRes)
  {
    assert Words(["username"]) && SnakeOf(["username"]) == "username" && CamelOf(["username"]) == "username";
    FieldRenamedBy(Schemas.ApiGetSessionRes.fields[0], ApiGetSessionRes.fields[0], ["username"]);
  }
}
