/** The enumerations of src/constants.ts that the model needs. */
module Constants {
  /** The alignment policies of a programmatic scroll. */
  datatype Alignment = Auto | Start | Center | End

  /** The scroll direction, which picks the style keys: height/top or width/left. */
  datatype Direction = Horizontal | Vertical
}
