/** The keyboard keys the tab widgets and the carousel react to.  Every other
    value of `KeyboardEvent.key` is `Other`; none of the handlers tells two
    other keys apart. */
module Keyboard {

  datatype Key = ArrowLeft | ArrowRight | Home | End | Other
}
