/** The snake_case response validators the front end declares for the
    Pocket article listing and the app server's JSON answers. */
module Schemas {
  import opened Json
  import opened Zod

  const ImageKeys: seq<string> := ["item_id", "image_id", "src", "width", "height", "caption", "credit"]

  /** `itemImageSchema`: seven required strings. */
  const ItemImage: Schema :=
    Obj([Req("item_id", Str), Req("image_id", Str), Req("src", Str), Req("width", Str),
         Req("height", Str), Req("caption", Str), Req("credit", Str)])

  const VideoKeys: seq<string> := ["item_id", "image_id", "src", "width", "vid"]

  /** `itemVideoSchema`: the first four image keys, an optional `length`
      and a required `vid`; no `height`. */
  const ItemVideo: Schema :=
    Obj([Req("item_id", Str), Req("image_id", Str), Req("src", Str), Req("width", Str),
         Opt("length", Str), Req("vid", Str)])

  /** The fourteen required string keys of an article. */
  const ArticleKeys: seq<string> :=
    ["item_id", "resolve_id", "given_url", "given_title", "resolved_url", "resolved_title",
     "favorite", "status", "excerpt", "is_article", "is_index", "has_image", "has_video", "word_count"]

  const ArticleOptionalStrings: seq<string> :=
    ["time_added", "time_updated", "time_read", "time_favorited", "tags", "authors", "lang", "top_image_url"]

  const ArticleOptionalNumbers: seq<string> := ["sort_id", "time_to_read", "listen_duration_estimate"]

  /** `articleSchema`. */
  const Article: Schema :=
    Obj([Req("item_id", Str), Req("resolve_id", Str), Req("given_url", Str), Req("given_title", Str),
         Req("resolved_url", Str), Req("resolved_title", Str), Req("favorite", Str), Req("status", Str),
         Opt("time_added", Str), Opt("time_updated", Str), Opt("time_read", Str), Opt("time_favorited", Str),
         Opt("sort_id", Num), Req("excerpt", Str), Req("is_article", Str), Req("is_index", Str),
         Req("has_image", Str), Req("has_video", Str), Req("word_count", Str), Opt("tags", Str),
         Opt("authors", Str), Opt("images", Arr(ItemImage)), Opt("videos", Arr(ItemVideo)),
         Opt("lang", Str), Opt("time_to_read", Num), Opt("listen_duration_estimate", Num),
         Opt("top_image_url", Str), Opt("domain_metadata", Anything)])

  /** `apiGetSessionResSchema`. */
  const ApiGetSessionRes: Schema := Obj([Opt("username", Str)])

  /** `apiGetArticlesResSchema`: `articles` defaults to the empty list. */
  const ApiGetArticlesRes: Schema := Obj([Def("articles", Arr(Article), JArr([]))])

  /** `apiAuthzResSchema`. */
  const ApiAuthzRes: Schema := Obj([Opt("username", Str)])

  // What each validator accepts, stated key by key.

  predicate ImageShape(j: Json) {
    j.JObj? && StringsAt(j.fields, ImageKeys)
  }

  predicate VideoShape(j: Json) {
    j.JObj? && StringsAt(j.fields, VideoKeys) && OptionalStringsAt(j.fields, ["length"])
  }

  predicate ArticleShape(j: Json) {
    j.JObj? &&
    StringsAt(j.fields, ArticleKeys) &&
    OptionalStringsAt(j.fields, ArticleOptionalStrings) &&
    OptionalNumbersAt(j.fields, ArticleOptionalNumbers) &&
    OptionalArrayAt(j.fields, "images", ImageShape) &&
    OptionalArrayAt(j.fields, "videos", VideoShape)
  }

  /** A value whose only constraint is an optional string `username`. */
  predicate UsernameShape(j: Json) {
    j.JObj? && OptionalStringsAt(j.fields, ["username"])
  }

  /** An image passes exactly when all seven keys hold strings. */
  lemma ImageValid(j: Json)
    ensures Valid(ItemImage, j) <==> ImageShape(j)
  {
    var fs := ItemImage.fields;
    if j.JObj? {
      forall k | k in ImageKeys ensures exists i :: 0 <= i < |fs| && fs[i] == Req(k, Str) {
        var i :| 0 <= i < |ImageKeys| && ImageKeys[i] == k;
        assert fs[i] == Req(k, Str);
      }
      assert forall i :: 0 <= i < |fs| ==> fs[i] == Req(fs[i].key, Str) && fs[i].key in ImageKeys;
    }
  }

  /** A video passes exactly when its five required keys hold strings and
      a present `length` is a string; parsing drops any `height`. */
  lemma VideoValid(j: Json)
    ensures Valid(ItemVideo, j) <==> VideoShape(j)
    ensures Valid(ItemVideo, j) ==> "height" !in Output(ItemVideo, j).fields
  {
    if Valid(ItemVideo, j) {
      ObjectOutputKeys(ItemVideo.fields, j, "height");
    }
    var fs := ItemVideo.fields;
    if j.JObj? {
      var ids := [0, 1, 2, 3, 5];
      forall k | k in VideoKeys ensures exists i :: 0 <= i < |fs| && fs[i] == Req(k, Str) {
        var n :| 0 <= n < |VideoKeys| && VideoKeys[n] == k;
        assert fs[ids[n]] == Req(k, Str);
      }
      assert fs[4] == Opt("length", Str);
      assert forall i :: 0 <= i < |fs| ==> (fs[i] == Req(fs[i].key, Str) && fs[i].key in VideoKeys) || fs[i] == Opt("length", Str);
    }
  }

  /** Where each group of keys sits in `articleSchema`. */
  const RequiredAt: seq<nat> := [0, 1, 2, 3, 4, 5, 6, 7, 13, 14, 15, 16, 17, 18]
  const OptionalStringAt: seq<nat> := [8, 9, 10, 11, 19, 20, 23, 26]
  const OptionalNumberAt: seq<nat> := [12, 24, 25]

  lemma ArticleLayout()
    ensures |Article.fields| == 28
    ensures forall n :: 0 <= n < |ArticleKeys| ==> RequiredAt[n] < 28 && Article.fields[RequiredAt[n]] == Req(ArticleKeys[n], Str)
    ensures forall n :: 0 <= n < |ArticleOptionalStrings| ==> OptionalStringAt[n] < 28 && Article.fields[OptionalStringAt[n]] == Opt(ArticleOptionalStrings[n], Str)
    ensures forall n :: 0 <= n < |ArticleOptionalNumbers| ==> OptionalNumberAt[n] < 28 && Article.fields[OptionalNumberAt[n]] == Opt(ArticleOptionalNumbers[n], Num)
    ensures Article.fields[21] == Opt("images", Arr(ItemImage))
    ensures Article.fields[22] == Opt("videos", Arr(ItemVideo))
    ensures Article.fields[27] == Opt("domain_metadata", Anything)
    ensures forall i :: 0 <= i < 28 ==> i in RequiredAt || i in OptionalStringAt || i in OptionalNumberAt || i in {21, 22, 27}
  {
  }

  lemma ArticleValidStrings(j: Json)
    requires Valid(Article, j)
    ensures StringsAt(j.fields, ArticleKeys) && OptionalStringsAt(j.fields, ArticleOptionalStrings)
  {
    ArticleLayout();
    forall k | k in ArticleKeys ensures k in j.fields && j.fields[k].JStr? {
      var n :| 0 <= n < |ArticleKeys| && ArticleKeys[n] == k;
      assert FieldValid(Article.fields[RequiredAt[n]], j.fields);
    }
    forall k | k in ArticleOptionalStrings && k in j.fields ensures j.fields[k].JStr? {
      var n :| 0 <= n < |ArticleOptionalStrings| && ArticleOptionalStrings[n] == k;
      assert FieldValid(Article.fields[OptionalStringAt[n]], j.fields);
    }
  }

  lemma ArticleValidRest(j: Json)
    requires Valid(Article, j)
    ensures OptionalNumbersAt(j.fields, ArticleOptionalNumbers)
    ensures OptionalArrayAt(j.fields, "images", ImageShape)
    ensures OptionalArrayAt(j.fields, "videos", VideoShape)
  {
    ArticleLayout();
    forall k | k in ArticleOptionalNumbers && k in j.fields ensures j.fields[k].JNum? {
      var n :| 0 <= n < |ArticleOptionalNumbers| && ArticleOptionalNumbers[n] == k;
      assert FieldValid(Article.fields[OptionalNumberAt[n]], j.fields);
    }
    assert FieldValid(Article.fields[21], j.fields) && FieldValid(Article.fields[22], j.fields);
    forall x ensures Valid(ItemImage, x) == ImageShape(x) { ImageValid(x); }
    forall x ensures Valid(ItemVideo, x) == VideoShape(x) { VideoValid(x); }
  }

  lemma ArticleValidShape(j: Json)
    requires Valid(Article, j)
    ensures ArticleShape(j)
  {
    ArticleValidStrings(j);
    ArticleValidRest(j);
  }

  lemma ArticleShapeValid(j: Json)
    requires ArticleShape(j)
    ensures Valid(Article, j)
  {
    ArticleLayout();
    var fs := Article.fields;
    var m := j.fields;
    forall x ensures Valid(ItemImage, x) == ImageShape(x) { ImageValid(x); }
    forall x ensures Valid(ItemVideo, x) == VideoShape(x) { VideoValid(x); }
    forall i | 0 <= i < |fs| ensures FieldValid(fs[i], m) {
      if i in RequiredAt {
        var n :| 0 <= n < |RequiredAt| && RequiredAt[n] == i;
        assert ArticleKeys[n] in ArticleKeys;
      } else if i in OptionalStringAt {
        var n :| 0 <= n < |OptionalStringAt| && OptionalStringAt[n] == i;
        assert ArticleOptionalStrings[n] in ArticleOptionalStrings;
      } else if i in OptionalNumberAt {
        var n :| 0 <= n < |OptionalNumberAt| && OptionalNumberAt[n] == i;
        assert ArticleOptionalNumbers[n] in ArticleOptionalNumbers;
      }
    }
  }

  /** An article passes exactly when its fourteen required keys hold
      strings, its optional keys hold strings or numbers as declared when
      present, and present `images` and `videos` are arrays of valid images
      and videos; `domain_metadata` may hold anything. */
  lemma ArticleValid(j: Json)
    ensures Valid(Article, j) <==> ArticleShape(j)
  {
    if Valid(Article, j) { ArticleValidShape(j); }
    if ArticleShape(j) { ArticleShapeValid(j); }
  }

  /** An articles response without `articles` parses to an empty list, and
      every other key is dropped. */
  lemma MissingArticlesDefault(j: Json)
    requires j.JObj? && "articles" !in j.fields
    ensures Valid(ApiGetArticlesRes, j)
    ensures Output(ApiGetArticlesRes, j) == JObj(map["articles" := JArr([])])
  {
    assert FieldValid(ApiGetArticlesRes.fields[0], j.fields);
    var o := Output(ApiGetArticlesRes, j);
    forall k ensures k in o.fields <==> k == "articles" {
      ObjectOutputKeys(ApiGetArticlesRes.fields, j, k);
    }
    ObjectOutputField(ApiGetArticlesRes.fields, j, 0);
    assert |Output(Arr(Article), JArr([])).items| == 0;
    assert o.fields == map["articles" := JArr([])];
  }

  /** The session and authorization responses accept exactly an object whose
      `username`, if present, is a string. */
  lemma UsernameResponses(j: Json)
    ensures Valid(ApiGetSessionRes, j) <==> UsernameShape(j)
    ensures Valid(ApiAuthzRes, j) <==> UsernameShape(j)
  {
    if j.JObj? {
      assert ApiGetSessionRes.fields[0] == Opt("username", Str);
    }
  }

  /** Parsing either response keeps `username` when it is present and drops
      every other key. */
  lemma UsernameParse(j: Json)
    requires Valid(ApiGetSessionRes, j)
    ensures Output(ApiGetSessionRes, j) ==
              JObj(if "username" in j.fields then map["username" := j.fields["username"]] else map[])
    ensures Output(ApiAuthzRes, j) == Output(ApiGetSessionRes, j)
  {
    var o := Output(ApiGetSessionRes, j);
    forall k ensures k in o.fields <==> k == "username" && "username" in j.fields {
      ObjectOutputKeys(ApiGetSessionRes.fields, j, k);
    }
    if "username" in j.fields {
      ObjectOutputField(ApiGetSessionRes.fields, j, 0);
    }
  }
}
