/** What the downloader receives from the outside world, as values.

    The page request (`requests.get` on the story page, HTML parsing of the
    `__NEXT_DATA__` element and `json.loads`) is summed up by a `Page`; a media
    request by a `Response`.  A dictionary lookup that can raise `KeyError` is a
    field of type `Option`, where `None` means the key is absent. */
module Inputs {

  datatype Option<+T> = None | Some(value: T)

  type Bytes = seq<bv8>

  /** The value stored under "mediaUrl": JSON null or a string. */
  datatype UrlValue = Null | Str(text: string)

  /** The dictionary under "snapUrls". */
  datatype SnapUrls = SnapUrls(mediaUrl: Option<UrlValue>)

  /** One element of "snapList". */
  datatype Record = Record(snapUrls: Option<SnapUrls>)

  datatype Story = Story(snapList: Option<seq<Record>>)
  datatype PageProps = PageProps(story: Option<Story>)
  datatype Props = Props(pageProps: Option<PageProps>)

  /** The decoded page payload: a dictionary with an optional "props" key and
      `otherKeys` further keys that the downloader never reads. */
  datatype Tree = Tree(props: Option<Props>, otherKeys: nat)

  /** The outcome of fetching and decoding a handle's story page. */
  datatype Page = NotOk | Ok(tree: Tree)

  /** A media response: status code, the two headers the downloader reads, and the body. */
  datatype Response = Response(status: int, contentType: Option<string>, etag: Option<string>, body: Bytes)

  /** Python truthiness of the decoded dictionary: it is not empty. */
  predicate NonEmpty(t: Tree)
  {
    t.props.Some? || t.otherKeys > 0
  }

  /** Python truthiness of the "mediaUrl" value: neither null nor the empty string. */
  predicate HasUrl(u: UrlValue)
  {
    u.Str? && u.text != ""
  }

  /** `json_dict["props"]["pageProps"]["story"]["snapList"]`, or `None` when a key on the path is absent. */
  function SnapList(t: Tree): Option<seq<Record>>
  {
    match t.props
    case None => None
    case Some(props) =>
      match props.pageProps
      case None => None
      case Some(pageProps) =>
        match pageProps.story
        case None => None
        case Some(story) => story.snapList
  }
}
