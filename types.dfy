/** The enumerations of src/types.ts. */
module Types {

  /** `enum Browser`, whose values are the strings "edge", "chrome" and "firefox". */
  datatype Browser = Edge | Chrome | Firefox

  function BrowserValue(b: Browser): string {
    match b
    case Edge => "edge"
    case Chrome => "chrome"
    case Firefox => "firefox"
  }

  /** `enum DEVICE_WIDTH`: the viewport width in pixels of each device class. */
  datatype DeviceWidth = Desktop | Tablet | Mobile

  function Pixels(w: DeviceWidth): nat {
    match w
    case Desktop => 1920
    case Tablet => 768
    case Mobile => 375
  }
}
