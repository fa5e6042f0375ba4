/**
 * The search handler of main.py (`search_video_on_youtube`). The search
 * collaborator is the function `search` from a query to its ordered list of
 * candidate videos; the handler pages that list and copies each video on the
 * page into a response record.
 */
module Search {

  import opened Wrappers
  import opened Pagination

  /** The attributes the handler reads from one search result of the collaborator. */
  datatype Video = Video(
    videoId: string,
    title: string,
    thumbnailUrl: string,
    length: int,
    views: int,
    rating: Option<real>,
    author: string,
    publishDate: Option<string>,
    description: Option<string>)

  /** One entry of the response's `results` list. */
  datatype VideoSummary = VideoSummary(
    videoId: string,
    title: string,
    thumbnail: string,
    length: int,
    views: int,
    rating: Option<real>,
    author: string,
    publishDate: Option<string>,
    description: Option<string>)

  /** The JSON body the handler returns. */
  datatype SearchResponse = SearchResponse(
    page: int,
    pageSize: int,
    totalResults: nat,
    totalPages: nat,
    results: seq<VideoSummary>)

  /** The dictionary built for one result: every attribute copied, `thumbnail_url` renamed `thumbnail`. */
  function Summarize(v: Video): VideoSummary
  {
    VideoSummary(v.videoId, v.title, v.thumbnailUrl, v.length, v.views, v.rating,
                 v.author, v.publishDate, v.description)
  }

  /**
   * `GET /api/search`. The bounds on `query`, `page` and `page_size` are the
   * ones the route's parameter validation enforces before the handler runs.
   * The response reports the full candidate count and page count, whatever
   * page was asked for, and lists the summaries of exactly the requested
   * page's results, in order.
   */
  method SearchVideoOnYoutube(search: string -> seq<Video>, query: string, page: int, pageSize: int)
    returns (resp: SearchResponse)
    requires 1 <= |query| <= 100
    requires page >= 1 && 1 <= pageSize <= 50
    ensures resp.page == page && resp.pageSize == pageSize
    ensures resp.totalResults == |search(query)|
    ensures resp.totalPages == TotalPages(|search(query)|, pageSize)
    ensures |resp.results| == |Paginate(search(query), page, pageSize)|
    ensures forall k | 0 <= k < |resp.results| ::
      resp.results[k] == Summarize(search(query)[Offset(page, pageSize) + k])
  {
    var results := search(query);
    var videos: seq<VideoSummary> := [];

    var startIndex := (page - 1) * pageSize;
    var endIndex := startIndex + pageSize;
    var paginatedResults := PySlice(results, startIndex, endIndex);
    assert paginatedResults == Paginate(results, page, pageSize);

    for i := 0 to |paginatedResults|
      invariant |videos| == i
      invariant forall k | 0 <= k < i :: videos[k] == Summarize(paginatedResults[k])
    {
      videos := videos + [Summarize(paginatedResults[i])];
    }

    resp := SearchResponse(page, pageSize, |results|, (|results| + pageSize - 1) / pageSize, videos);
  }

  /**
   * Twelve candidates, page 2 of size 5: three pages in all, and the page
   * holds candidates 5 to 9.
   */
  lemma SecondPageOfTwelve<T>(candidates: seq<T>)
    requires |candidates| == 12
    ensures TotalPages(|candidates|, 5) == 3
    ensures Paginate(candidates, 2, 5) == candidates[5..10]
  {
    TotalPagesIsCeiling(12, 5, 3);
  }
}
