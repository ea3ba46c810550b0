/** The upstream GIF API as the core sees it: the records it returns and the
    three ways a request to it can end. The HTTP call itself is an oracle,
    a function from the requested id or search term to one of these replies. */
module Giphy {
  import opened Basics

  /** `images.downsized_medium` of an upstream record. */
  datatype Rendition = Rendition(url: Option<string>)

  /** `images` of an upstream record; `downsized_medium` may be missing. */
  datatype Images = Images(downsizedMedium: Option<Rendition>)

  /** One upstream GIF record, reduced to the fields the core reads. */
  datatype GiphyRecord = GiphyRecord(id: string, title: string, images: Option<Images>)

  /** Body of a get-by-id reply: `{ data }`, where `data` may be missing. */
  datatype ByIdPayload = ByIdPayload(data: Option<GiphyRecord>)

  /** Body of a search reply: `{ data: [...] }`, where `data` may be missing. */
  datatype SearchPayload = SearchPayload(data: Option<seq<GiphyRecord>>)

  /** How an upstream request ends: an ok response with its parsed body, a
      response whose status is not ok, or a `fetch` that rejects. */
  datatype Reply<+P> = Payload(body: P) | NotOk(statusText: string) | Unreachable(message: string)

  /** A search hit as the search resource returns and caches it: `{id, url, title}`. */
  datatype Gif = Gif(id: string, url: Option<string>, title: string)
}
