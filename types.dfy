/** The values the image-inventory pipeline works on. */
module Types {

  datatype Option<T> = None | Some(value: T)

  /** One key/value entry of an image's optional tag list. */
  datatype Tag = Tag(key: string, value: string)

  /** One image descriptor of a region snapshot: its ImageId, its Name and its optional Tags. */
  datatype Image = Image(imageId: string, name: string, tags: Option<seq<Tag>>)

  /** One snapshot file: the stem of its file name (the region) and the descriptors under "Images". */
  datatype Snapshot = Snapshot(stem: string, images: seq<Image>)

  /** A normalized record {region, ami, ami_id}. */
  datatype Record = Record(region: string, ami: string, amiId: string)

  /** One entry of the region document: {region: {"ami": image id}}. */
  type RegionEntry = map<string, map<string, string>>
}
