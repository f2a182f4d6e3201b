/** The conversions in app-server/src/db.rs that turn a Pocket item into the
    rows stored for it: the article row and its video, image and author
    rows. The item type comes from another file; it is defined here from
    the fields the conversions read. */
module Db {
  import opened Wrappers
  import opened RustParse
  import opened Errors

  /** A value of one of Pocket's small enums, read with `as_u8()`. */
  type U8 = n: int | 0 <= n < 256

  datatype Video = Video(itemId: string, videoId: string, src: string, height: string, width: string,
                         length: Option<string>, vid: string)
  datatype Image = Image(itemId: string, imageId: string, src: string, height: string, width: string,
                         credit: string, caption: string)
  datatype Author = Author(id: string, name: string, url: string)

  /** The Pocket item as the conversions see it; timestamps are their
      seconds, integer fields their values before `as i32`. */
  datatype Article = Article(
    itemId: string,
    resolvedId: Option<string>,
    givenUrl: Option<string>,
    givenTitle: Option<string>,
    favorite: Option<string>,
    status: U8,
    timeAdded: Option<int>,
    timeUpdated: Option<int>,
    timeRead: Option<int>,
    timeFavorited: Option<int>,
    sortId: Option<int>,
    resolvedUrl: Option<string>,
    resolvedTitle: Option<string>,
    excerpt: Option<string>,
    isArticle: Option<string>,
    isIndex: Option<string>,
    hasImage: Option<U8>,
    hasVideo: Option<U8>,
    wordCount: Option<string>,
    tags: Option<string>,
    lang: Option<string>,
    timeToRead: Option<int>,
    listenDurationEstimate: Option<int>,
    topImageUrl: Option<string>,
    videos: Option<seq<Video>>,
    images: Option<seq<Image>>,
    authors: Option<seq<Author>>)

  /** `ArticleModel`. */
  datatype ArticleModel = ArticleModel(
    userId: int,
    itemId: string,
    resolvedId: Option<string>,
    givenUrl: Option<string>,
    givenTitle: Option<string>,
    favorite: bool,
    status: int,
    timeAdded: Option<int>,
    timeUpdated: Option<int>,
    timeRead: Option<int>,
    timeFavorited: Option<int>,
    sortId: Option<int>,
    resolvedUrl: Option<string>,
    resolvedTitle: Option<string>,
    excerpt: Option<string>,
    isArticle: bool,
    isIndex: bool,
    hasImage: Option<int>,
    hasVideo: Option<int>,
    wordCount: Option<int>,
    tags: Option<string>,
    lang: Option<string>,
    timeToRead: Option<int>,
    listenDurationEstimate: Option<int>,
    topImageUrl: Option<string>)

  datatype ArticleVideoModel = ArticleVideoModel(articleId: int, itemId: string, videoId: string, src: string,
                                                 height: int, width: int, length: Option<int>, vid: string)
  datatype ArticleImageModel = ArticleImageModel(articleId: int, itemId: string, imageId: string, src: string,
                                                 height: int, width: int, credit: string, caption: string)
  datatype ArticleAuthorModel = ArticleAuthorModel(articleId: int, authorId: string, name: string, url: string)

  /** A Pocket `"0"` flag: anything but the string "0", or no value at all,
      counts as set. */
  function Flag(s: Option<string>): (b: bool)
    ensures !b <==> s == Some("0")
  {
    match s
    case None => true
    case Some(v) => v != "0"
  }

  /** `.and_then(|s| s.parse().ok())` for an `i32`. */
  function ParseOptionalI32(s: Option<string>): (r: Option<int>)
    ensures r.Some? <==> s.Some? && ParseI32(s.value).Some?
    ensures r.Some? ==> InI32(r.value) && r == ParseI32(s.value)
  {
    match s
    case None => None
    case Some(v) => ParseI32(v)
  }

  function Wrap32Option(x: Option<int>): (r: Option<int>)
    ensures r.Some? <==> x.Some?
    ensures r.Some? ==> r.value == Wrap32(x.value)
  {
    match x
    case None => None
    case Some(v) => Some(Wrap32(v))
  }

  /** `convert_article_to_article_model`. */
  function ConvertArticle(article: Article, userId: int): (r: Result<ArticleModel, Error>)
    ensures r.Ok?
    ensures r.value.userId == userId
    ensures r.value.itemId == article.itemId && r.value.resolvedId == article.resolvedId
    ensures r.value.givenUrl == article.givenUrl && r.value.givenTitle == article.givenTitle
    ensures r.value.resolvedUrl == article.resolvedUrl && r.value.resolvedTitle == article.resolvedTitle
    ensures r.value.excerpt == article.excerpt && r.value.tags == article.tags
    ensures r.value.lang == article.lang && r.value.topImageUrl == article.topImageUrl
    ensures r.value.timeAdded == article.timeAdded && r.value.timeUpdated == article.timeUpdated
    ensures r.value.timeRead == article.timeRead && r.value.timeFavorited == article.timeFavorited
    ensures r.value.favorite <==> article.favorite == Some("true")
    ensures 0 <= r.value.status < 256 && r.value.status == article.status
    ensures !r.value.isArticle <==> article.isArticle == Some("0")
    ensures !r.value.isIndex <==> article.isIndex == Some("0")
    ensures r.value.hasImage.Some? <==> article.hasImage.Some?
    ensures r.value.hasImage.Some? ==> 0 <= r.value.hasImage.value < 256 && r.value.hasImage.value == article.hasImage.value as int
    ensures r.value.hasVideo.Some? <==> article.hasVideo.Some?
    ensures r.value.hasVideo.Some? ==> 0 <= r.value.hasVideo.value < 256 && r.value.hasVideo.value == article.hasVideo.value as int
    ensures r.value.wordCount.Some? <==> article.wordCount.Some? && ParseI32(article.wordCount.value).Some?
    ensures r.value.wordCount.Some? ==> ParseI32(article.wordCount.value) == r.value.wordCount
    ensures r.value.sortId.Some? <==> article.sortId.Some?
    ensures r.value.sortId.Some? ==> InI32(r.value.sortId.value) && (article.sortId.value - r.value.sortId.value) % 0x1_0000_0000 == 0
    ensures r.value.sortId.Some? ==> r.value.sortId.value == Wrap32(article.sortId.value)
    ensures r.value.timeToRead.Some? <==> article.timeToRead.Some?
    ensures r.value.timeToRead.Some? ==> InI32(r.value.timeToRead.value) && r.value.timeToRead.value == Wrap32(article.timeToRead.value)
    ensures r.value.listenDurationEstimate.Some? <==> article.listenDurationEstimate.Some?
    ensures r.value.listenDurationEstimate.Some? ==> InI32(r.value.listenDurationEstimate.value) && r.value.listenDurationEstimate.value == Wrap32(article.listenDurationEstimate.value)
  {
    Ok(ArticleModel(
      userId,
      article.itemId,
      article.resolvedId,
      article.givenUrl,
      article.givenTitle,
      (match article.favorite case None => None case Some(f) => ParseBool(f)).GetOr(false),
      article.status,
      article.timeAdded,
      article.timeUpdated,
      article.timeRead,
      article.timeFavorited,
      Wrap32Option(article.sortId),
      article.resolvedUrl,
      article.resolvedTitle,
      article.excerpt,
      Flag(article.isArticle),
      Flag(article.isIndex),
      match article.hasImage case None => None case Some(v) => Some(v as int),
      match article.hasVideo case None => None case Some(v) => Some(v as int),
      ParseOptionalI32(article.wordCount),
      article.tags,
      article.lang,
      Wrap32Option(article.timeToRead),
      Wrap32Option(article.listenDurationEstimate),
      article.topImageUrl))
  }

  /** One video row; an unparsable height or width is stored as 0. */
  function ConvertVideo(video: Video, articleId: int): (m: ArticleVideoModel)
    ensures m.articleId == articleId && m.itemId == video.itemId && m.videoId == video.videoId
    ensures m.src == video.src && m.vid == video.vid
    ensures ParseI32(video.height).None? ==> m.height == 0
    ensures ParseI32(video.height).Some? ==> m.height == ParseI32(video.height).value
    ensures ParseI32(video.width).None? ==> m.width == 0
    ensures ParseI32(video.width).Some? ==> m.width == ParseI32(video.width).value
    ensures m.length == ParseOptionalI32(video.length)
  {
    ArticleVideoModel(articleId, video.itemId, video.videoId, video.src,
                      ParseI32(video.height).GetOr(0), ParseI32(video.width).GetOr(0),
                      ParseOptionalI32(video.length), video.vid)
  }

  /** One image row; an unparsable height or width is stored as 0. */
  function ConvertImage(image: Image, articleId: int): (m: ArticleImageModel)
    ensures m.articleId == articleId && m.itemId == image.itemId && m.imageId == image.imageId
    ensures m.src == image.src && m.credit == image.credit && m.caption == image.caption
    ensures ParseI32(image.height).None? ==> m.height == 0
    ensures ParseI32(image.height).Some? ==> m.height == ParseI32(image.height).value
    ensures ParseI32(image.width).None? ==> m.width == 0
    ensures ParseI32(image.width).Some? ==> m.width == ParseI32(image.width).value
  {
    ArticleImageModel(articleId, image.itemId, image.imageId, image.src,
                      ParseI32(image.height).GetOr(0), ParseI32(image.width).GetOr(0),
                      image.credit, image.caption)
  }

  function ConvertAuthor(author: Author, articleId: int): (m: ArticleAuthorModel)
    ensures m == ArticleAuthorModel(articleId, author.id, author.name, author.url)
  {
    ArticleAuthorModel(articleId, author.id, author.name, author.url)
  }

  /** `convert_article_to_article_video_models`: one row per video, in
      order; no videos gives no rows. */
  function ConvertVideos(article: Article, articleId: int): (r: Result<seq<ArticleVideoModel>, Error>)
    ensures r.Ok?
    ensures article.videos.None? ==> r.value == []
    ensures article.videos.Some? ==> |r.value| == |article.videos.value|
    ensures article.videos.Some? ==>
              forall i :: 0 <= i < |r.value| ==> r.value[i] == ConvertVideo(article.videos.value[i], articleId)
  {
    match article.videos
    case None => Ok([])
    case Some(videos) => Ok(seq(|videos|, i requires 0 <= i < |videos| => ConvertVideo(videos[i], articleId)))
  }

  /** `convert_article_to_article_image_models`. */
  function ConvertImages(article: Article, articleId: int): (r: Result<seq<ArticleImageModel>, Error>)
    ensures r.Ok?
    ensures article.images.None? ==> r.value == []
    ensures article.images.Some? ==> |r.value| == |article.images.value|
    ensures article.images.Some? ==>
              forall i :: 0 <= i < |r.value| ==> r.value[i] == ConvertImage(article.images.value[i], articleId)
  {
    match article.images
    case None => Ok([])
    case Some(images) => Ok(seq(|images|, i requires 0 <= i < |images| => ConvertImage(images[i], articleId)))
  }

  /** `convert_article_to_article_author_models`. */
  function ConvertAuthors(article: Article, articleId: int): (r: Result<seq<ArticleAuthorModel>, Error>)
    ensures r.Ok?
    ensures article.authors.None? ==> r.value == []
    ensures article.authors.Some? ==> |r.value| == |article.authors.value|
    ensures article.authors.Some? ==>
              forall i :: 0 <= i < |r.value| ==> r.value[i] == ConvertAuthor(article.authors.value[i], articleId)
  {
    match article.authors
    case None => Ok([])
    case Some(authors) => Ok(seq(|authors|, i requires 0 <= i < |authors| => ConvertAuthor(authors[i], articleId)))
  }

  /** The numbers read back: a stored height, width or word count formatted
      as the item had it (`i32::to_string`) converts to the same value. */
  lemma NumbersRoundTrip(video: Video, n: int, articleId: int)
    requires InI32(n) && video.height == FormatI32(n) && video.width == FormatI32(n)
    ensures ConvertVideo(video, articleId).height == n && ConvertVideo(video, articleId).width == n
  {
    ParseFormatI32(n);
  }

  /** Every row a conversion produces belongs to the article it was asked
      about, and every video or image row's item is its own item's. */
  lemma RowsBelongToArticle(article: Article, articleId: int)
    ensures forall m :: m in ConvertVideos(article, articleId).value ==> m.articleId == articleId
    ensures forall m :: m in ConvertImages(article, articleId).value ==> m.articleId == articleId
    ensures forall m :: m in ConvertAuthors(article, articleId).value ==> m.articleId == articleId
  {
    var vs := ConvertVideos(article, articleId).value;
    forall m | m in vs ensures m.articleId == articleId {
      var i :| 0 <= i < |vs| && vs[i] == m;
    }
    var ims := ConvertImages(article, articleId).value;
    forall m | m in ims ensures m.articleId == articleId {
      var i :| 0 <= i < |ims| && ims[i] == m;
    }
    var aus := ConvertAuthors(article, articleId).value;
    forall m | m in aus ensures m.articleId == articleId {
      var i :| 0 <= i < |aus| && aus[i] == m;
    }
  }
}
