/** The fixed LINE MUSIC track link that every written tag carries. */
module TrackLink {

  /** The link, spelled out by its scheme and host, its path and its query items. */
  const MusicUrl: string := Host + Path + Target + Item + SubItem + Country

  const Host: string := "https://music.line.me"
  const Path: string := "/app-bridge"
  const Target: string := "?target=track"
  const Item: string := "&item=mb00000000038a43e8"
  const SubItem: string := "&subitem=mt000000001ea53b13"
  const Country: string := "&cc=JP"

  /** The link contains no line break. */
  lemma MusicUrlHasNoLineBreak()
    ensures '\n' !in MusicUrl && '\r' !in MusicUrl
  {
    assert '\n' !in Host && '\r' !in Host;
    assert '\n' !in Path && '\r' !in Path;
    assert '\n' !in Target && '\r' !in Target;
    assert '\n' !in Item && '\r' !in Item;
    assert '\n' !in SubItem && '\r' !in SubItem;
    assert '\n' !in Country && '\r' !in Country;
  }
}
