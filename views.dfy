/** The tab surface the manager owns. The real View wraps an Electron
    BrowserView; only the attributes the manager reads or writes are kept. */
module Views {

  datatype Option<T> = None | Some(value: T)

  /** A pixel rectangle inside the window's content area. */
  datatype Rect = Rect(x: int, y: int, width: int, height: int)

  /** The creation request of a tab (chrome.tabs.CreateProperties); only its
      URL reaches the View. */
  datatype TabDetails = TabDetails(url: string)

  /** Zoom factor 1.0, in hundredths. */
  const NeutralZoom: int := 100

  class View {
    /** Identifier, unique for the lifetime of the process. */
    const id: int
    const url: string
    const incognito: bool
    /** Zoom factor of the surface's web contents, in hundredths. */
    var zoomFactor: int
    /** Last rectangle written by the manager; None until the first fit. */
    var bounds: Option<Rect>
    var muted: bool
    var destroyed: bool

    constructor (id: int, url: string, incognito: bool)
      ensures this.id == id && this.url == url && this.incognito == incognito
      ensures zoomFactor == NeutralZoom && bounds == None && !muted && !destroyed
    {
      this.id := id;
      this.url := url;
      this.incognito := incognito;
      zoomFactor := NeutralZoom;
      bounds := None;
      muted := false;
      destroyed := false;
    }

    /** Destroys the surface; destroying twice is harmless. */
    method Destroy()
      modifies this
      ensures destroyed
      ensures zoomFactor == old(zoomFactor) && bounds == old(bounds) && muted == old(muted)
    {
      destroyed := true;
    }

    method SetAudioMuted(m: bool)
      modifies this
      ensures muted == m
      ensures zoomFactor == old(zoomFactor) && bounds == old(bounds) && destroyed == old(destroyed)
    {
      muted := m;
    }
  }
}
