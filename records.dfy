/** The release records of `data/discogs-collection.json`, written by the
    Discogs fetcher and reordered by the colour sorter. */
module Records {
  /** One track of a release's tracklist. */
  datatype Track = Track(position: string, title: string, duration: string)

  /** One saved release. */
  datatype Release = Release(
    id: int,
    instance_id: int,
    title: string,
    artist: string,
    year: int,
    cover_image: string,
    tracks: seq<Track>)
}
