/** Optional values: snippet fields that older records lack, and lookups that can miss. */
module Optional {

  datatype Option<+T> = None | Some(value: T)
}
