/** Parser events as the tree builders consume them (source spans are dropped). */
module Events {
  import opened Common

  datatype Style = Plain | Quoted

  type Tag = (string, string)

  datatype Event =
    | StreamStart
    | StreamEnd
    | DocumentStart
    | DocumentEnd
    | Alias(anchor: string)
    | Scalar(text: string, style: Style, name: Option<string>, tag: Option<Tag>)
    | SequenceStart(name: Option<string>)
    | SequenceEnd
    | MappingStart(name: Option<string>)
    | MappingEnd
}
