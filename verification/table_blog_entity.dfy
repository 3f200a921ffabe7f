/** Conversion between a blog post and the record it is stored as in table
    storage (`TableBlogEntity`). The record holds the body as a list of
    length-bounded chunks; reading it back joins the chunks again. */
module BlogEntities {
  import opened Results
  import opened StringChunks

  /** A C# string reference: `None` is `null`, the default of an unset field. */
  type NullableString = Option<string>

  /** A point in time, seen only through its tick count; `DateTime.MinValue`
      is the zero tick and marks a date that was never set. */
  datatype DateTime = DateTime(ticks: nat)

  const MinValue: DateTime := DateTime(0)

  /** Longest chunk a stored body may hold (`ApplicationConstants.ContentSplitLength`). */
  const ContentSplitLength: nat := 1024

  /** The domain entity, as the authoring side hands it over. */
  datatype BlogPost = BlogPost(
    title: NullableString,
    body: string,
    blogId: NullableString,
    blogKey: NullableString,
    blogFormattedUri: NullableString,
    categoriesCsv: NullableString,
    postedDate: DateTime,
    entityTag: NullableString,
    isDraft: bool,
    isDeleted: bool)

  /** The persisted shape: the same scalars, with the body held as chunks. */
  datatype TableBlogEntity = TableBlogEntity(
    formattedUri: NullableString,
    title: NullableString,
    body: seq<string>,
    blogKey: NullableString,
    blogId: NullableString,
    postedDate: DateTime,
    categoriesCsv: NullableString,
    entityTag: NullableString,
    isDraft: bool,
    isDeleted: bool)

  /** The `TableBlogEntity(BlogPost)` constructor; `utcNow` stands for the
      clock reading `DateTime.UtcNow` at the time of the call. */
  function FromPost(post: BlogPost, utcNow: DateTime): (e: TableBlogEntity)
    ensures Combine(e.body) == post.body
    ensures forall i :: 0 <= i < |e.body| ==> 0 < |e.body[i]| <= ContentSplitLength
    ensures post.postedDate == MinValue ==> e.postedDate == utcNow
    ensures post.postedDate != MinValue ==> e.postedDate == post.postedDate
    ensures e.title == post.title && e.formattedUri == post.blogFormattedUri
    ensures e.blogKey == post.blogKey && e.blogId == post.blogId
    ensures e.categoriesCsv == post.categoriesCsv && e.entityTag == post.entityTag
    ensures e.isDraft == post.isDraft && e.isDeleted == post.isDeleted
  {
    CombineSplit(post.body, ContentSplitLength);
    TableBlogEntity(
      formattedUri := post.blogFormattedUri,
      title := post.title,
      body := SplitByLength(post.body, ContentSplitLength),
      blogKey := post.blogKey,
      blogId := post.blogId,
      postedDate := if post.postedDate == MinValue then utcNow else post.postedDate,
      categoriesCsv := post.categoriesCsv,
      entityTag := post.entityTag,
      isDraft := post.isDraft,
      isDeleted := post.isDeleted)
  }

  /** Raised when the constructor dereferences a null post. */
  datatype NullReferenceException = NullReferenceException

  /** The constructor as callers see it: a null post throws at the first
      field read, any other post is converted by `FromPost`. */
  function NewTableBlogEntity(post: Option<BlogPost>, utcNow: DateTime)
    : (r: Result<TableBlogEntity, NullReferenceException>)
    ensures r.Failure? <==> post.None?
    ensures r.Success? ==> r.value == FromPost(post.value, utcNow)
    ensures r.Success? ==> Combine(r.value.body) == post.value.body
    ensures r.Success? ==> r.value.blogId == post.value.blogId
  {
    match post
    case None => Failure(NullReferenceException)
    case Some(p) => Success(FromPost(p, utcNow))
  }

  /** `GetBlogPost`: a missing record reads as a missing post; otherwise the
      chunks are joined and the scalars copied. The key and the formatted URI
      are not carried back and stay at their defaults. */
  function GetBlogPost(entity: Option<TableBlogEntity>): (post: Option<BlogPost>)
    ensures post.None? <==> entity.None?
    ensures entity.Some? ==> post.value.body == Combine(entity.value.body)
    ensures entity.Some? ==>
      && post.value.title == entity.value.title
      && post.value.blogId == entity.value.blogId
      && post.value.postedDate == entity.value.postedDate
      && post.value.entityTag == entity.value.entityTag
      && post.value.categoriesCsv == entity.value.categoriesCsv
      && post.value.isDraft == entity.value.isDraft
      && post.value.isDeleted == entity.value.isDeleted
    ensures entity.Some? ==> post.value.blogKey.None? && post.value.blogFormattedUri.None?
  {
    match entity
    case None => None
    case Some(e) =>
      Some(BlogPost(
        title := e.title,
        body := Combine(e.body),
        blogId := e.blogId,
        blogKey := None,
        blogFormattedUri := None,
        categoriesCsv := e.categoriesCsv,
        postedDate := e.postedDate,
        entityTag := e.entityTag,
        isDraft := e.isDraft,
        isDeleted := e.isDeleted))
  }

  /** Storing a post and reading it back returns the post with its body intact
      and its date defaulted, but with the key and the formatted URI lost. */
  lemma PostRoundTrip(post: BlogPost, utcNow: DateTime)
    ensures GetBlogPost(Some(FromPost(post, utcNow))).Some?
    ensures GetBlogPost(Some(FromPost(post, utcNow))).value.body == post.body
    ensures GetBlogPost(Some(FromPost(post, utcNow))).value
      == post.(blogKey := None, blogFormattedUri := None,
               postedDate := if post.postedDate == MinValue then utcNow else post.postedDate)
  {
  }

  /** The round trip is not the identity: a post that carries a key or a
      formatted URI comes back without it. */
  lemma PostRoundTripLosesKeyAndUri(post: BlogPost, utcNow: DateTime)
    requires post.blogKey.Some? || post.blogFormattedUri.Some?
    ensures GetBlogPost(Some(FromPost(post, utcNow))).value != post
  {
  }

  /** A record whose chunks are the canonical split of its body, and whose
      date is set, is rebuilt unchanged by reading it and storing it again,
      except for the key and the formatted URI; in particular the date
      default is not applied a second time, whatever the clock says. */
  lemma EntityRoundTrip(e: TableBlogEntity, later: DateTime)
    requires IsChunkingOf(e.body, Combine(e.body), ContentSplitLength)
    requires e.postedDate != MinValue
    ensures FromPost(GetBlogPost(Some(e)).value, later)
      == e.(formattedUri := None, blogKey := None)
  {
    SplitCombine(e.body, ContentSplitLength);
  }

  /** Every record `FromPost` builds holds the canonical split of its body. */
  lemma FromPostIsCanonical(post: BlogPost, utcNow: DateTime)
    ensures IsChunkingOf(FromPost(post, utcNow).body, post.body, ContentSplitLength)
  {
    SplitIsChunking(post.body, ContentSplitLength);
  }

  /** record -> post -> record keeps the first record's posted date, provided
      the clock never reads `MinValue`. */
  lemma PostedDateDefaultAppliedOnce(post: BlogPost, utcNow: DateTime, later: DateTime)
    requires utcNow != MinValue
    ensures FromPost(GetBlogPost(Some(FromPost(post, utcNow))).value, later)
      == FromPost(post, utcNow).(formattedUri := None, blogKey := None)
    ensures FromPost(GetBlogPost(Some(FromPost(post, utcNow))).value, later).postedDate
      == FromPost(post, utcNow).postedDate
  {
    FromPostIsCanonical(post, utcNow);
    EntityRoundTrip(FromPost(post, utcNow), later);
  }

  /** A body of 5000 characters is stored as five chunks and read back whole. */
  lemma FiveThousandCharacterBody(post: BlogPost, utcNow: DateTime)
    requires |post.body| == 5000
    ensures |FromPost(post, utcNow).body| == 5
    ensures GetBlogPost(Some(FromPost(post, utcNow))).value.body == post.body
  {
    SplitCount(post.body, ContentSplitLength);
  }
}
